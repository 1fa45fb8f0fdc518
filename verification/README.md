# Verified models of the xv6_gui kernel

xv6_gui is xv6 with a graphical desktop. This project models the parts of it whose correctness is
hard to see from the code, and proves what they are for: a crash never leaves half a transaction, a
file is the bytes written to it, a wakeup is not lost, a frame is freed once, a partial repaint
shows what a full one would.

The models follow the source in form. Code that changes things in place is a class or a method over
arrays with loop invariants; recursive code is a function; protocols that interleave are state
machines whose theorems speak of every run. Every method is tied to a value-level specification
about which the properties are then proved.

| modules, one file each | component |
|---|---|
| Blocks | 512-byte blocks as bytes, words and bits |
| Bio, Wal, GroupCommit, LogHeader, PinnedBuffers, Log | buffer cache and write-ahead log (src/bio.c, src/log.c, src/memide.c) |
| FileTree, FileBytes, FsLayout, FsState, FsContent, Fs | block allocator, three-level block map, file contents (src/fs.c, src/fs.h) |
| Dirents, Dirs | directories and their lookup (src/fs.c) |
| MkfsState, MkfsFiles, Mkfs, Boot | the image builder, and its image recovered and read by the kernel (src/mkfs.c) |
| FreeList, Links, Umalloc | the user-level allocator (src/umalloc.c) |
| Sleep, ProcTable, Procs, ProcRuns, ProcHistory, Spinlock | sleep and wakeup, exit and wait, interrupt nesting (src/proc.c, src/spinlock.c) |
| PipeRing, Pipe, PipeRuns | the pipe ring with 32-bit counters (src/pipe.c) |
| PageTree, VmSpec, VmDemand, VmShrink, VmGrow, Vm, VmCases | page tables, user memory and the frames they take (src/vm.c, src/kalloc.c) |
| ShLex, ShParse, ShGrammar, ShNul, Shell, ShellPrint | the shell's parser and its language (src/sh.c) |
| Grep | the regular-expression matcher (src/grep.c) |
| Pixels, Scenes, Pointers, Gui | repainting (src/gui.c) |
| WindowLinks, Windows | the window queue (src/window.c) |

`dafny verify dfyconfig.toml` checks the whole project.

## Findings

Where a property one would expect does not hold of the code, the code is modelled as it is, and the
exact condition is proved.

- `commit` needs a free buffer for the log block: it reaches the "bget: no buffers" panic exactly when
  the transaction has pinned all NBUF buffers (`Log.Log.Commit`).
- `log_write` stops one short of log.size, and the cache has to hold LOGSIZE pinned blocks, what readers
  hold and one block more. Operations within their budget never make the log or the cache panic if and
  only if log.size > LOGSIZE and NBUF > LOGSIZE plus the buffers readers may hold at once
  (`GroupCommit.PanicFreeIff`); one run fails on either count (`GroupCommit.FullLoad`). src/param.h makes
  NBUF equal to LOGSIZE, so the shipped constants panic for every log.size (`GroupCommit.ShippedPanics`),
  and the shipped image has log.size equal to LOGSIZE as well.
- `itrunc` does not visit addrs[NDIRECT+1]: it releases all blocks of a file if and only if the file
  has no double-indirect block (`FileTree.TruncReleasesAllIff`). Otherwise the address stays in the free
  inode (`FsContent.EmptiedAddrs`) until `ialloc` clears it; then blocks are marked that no file has
  (`Fs.FileSystem.Ialloc`, `FileTree.ForgetSoundIff`).
- mkfs rounds the root directory's size past the next block boundary. The last block then exists if
  and only if the entries do not fill whole blocks; otherwise the kernel's first read of it allocates
  (`MkfsFiles.RootTail`).
- mkfs does not keep its files out of the last nlog sectors, which are the log. A boot runs recovery
  first, and leaves the image as it is if and only if sector size - nlog begins with a zero word
  (`Boot.BootKeepsDiskIff`), as it does whenever mkfs stayed out of the log (`Boot.BlankLog`). A program whose
  block is that sector reads back if and only if the word is zero (`Boot.LogInFileIff`); mkfs with one data block
  and one program of eight bytes gives a disk where it does not (`Boot.DamagedProgram`).
- mkfs sets the bits of the blocks it handed out and no others, so the bits of the log region are clear.
  `balloc` hands out a log block if and only if every bit below the log is set (`Boot.BallocInLogIff`); on an
  image with one data block its first result is the log header (`Boot.FullDisk`). That home sectors lie
  outside the log is a hypothesis of the log theorems.
- `writei` writes the inode back only when the file grows. After a write that stays inside the file an
  up-to-date on-disk inode is still up to date if and only if addrs[] already led to every byte written
  (`FsContent.InPlaceWritten`, `FsContent.MissingRootUnsyncs`). The root directory of an image whose entries
  fill whole blocks is a file where it does not (`Boot.RootHoleUnsyncs`).
- `kill` hits a free slot if and only if some free slot's pid field holds the pid: 0, or the pid of a fork
  that was given up (`ProcRuns.KillHitsFreeSlotIff`, `ProcRuns.AbortLeavesPid`). The mark stays until a process
  in that slot is reaped, so the next child forked there starts out killed (`ProcRuns.KillMarksNextChild`). A fork
  given up after its slot was marked leaves the mark too; in every run where neither happens a process is
  marked if and only if kill found its pid (`ProcHistory.MarkedIffKilled`).
- A killed writer with more than PIPESIZE bytes left can fill the pipe and leave a reader asleep on
  it (`PipeRuns.StepSleepers`, `PipeRuns.KilledWriterStrandsReader`).
- `malloc`'s unit count wraps for requests above 0xFFFFFFF8 (`Umalloc.UnitsSuffice`).
- `deallocuvm` steps over a whole page table from wherever it stands: shrinking memory with a gap
  can leave pages mapped (`VmShrink.RemovesAllIff`, `VmCases.SkippedPage`).
- `allocuvm` ignores the result of `mappages`. It reports success with its last page unmapped if and only if
  that page opens a page table and the free list runs out exactly there, and it loses a frame if and only
  if the list runs out between some page and the page table it opens (`Vm.Machine.Allocuvm`,
  `VmCases.UnmappedPage`). A failed `copyuvm` restores the free list unless `setupkvm` failed half way or
  a page got its frame and no page table (`Vm.Machine.Copyuvm`, `VmCases.LostFrame`).
- `moveWindow` lets a window touch the first and last rows of the screen, where its frame leaves the
  buffer (`Scenes.MovedFitsIff`). The three buffers lie one after the other, so what is drawn above
  screen_temp2 lands in the last row of screen_temp1 (`Gui.Display.UpdateLastWindow`), and a later repaint can
  leave a point behind that a full redraw would not show (`Gui.PointStaysBehind`).
- With no window queued `updateBackWindows` follows a null link (`Gui.Display.UpdateBackWindows`).
- `reorderQueue` follows a null link when the window is in front already or is not queued
  (`Windows.Queue.ReorderQueue`).
- The shell has a token for `>>` but opens its file as it does for `>`: the two have one tree (`ShGrammar.AppendIsOut`).

## Model

| member | source | states |
|---|---|---|
| Bio.BCache.constructor | src/bio.c:39-56 | after binit the NBUF buffers form one ring, none valid, and the cache shows the disk |
| Bio.BCache.Bget | src/bio.c:62-95 | a cached sector is returned or slept on; otherwise the victim is the clean buffer released longest ago, and the panic happens exactly when none is clean; the cache invariant is kept |
| Bio.BCache.VictimIsOldest | src/bio.c:83-93 | the first clean buffer met from the tail was released before every other clean one |
| Bio.BCache.Bread | src/bio.c:99-107 | the buffer returned is held by the caller alone and carries the sector's latest content |
| Bio.BCache.Iderw | src/memide.c:37-58 | one synchronous sector write if the buffer is dirty, one read if it is not valid; the disk history records each write |
| Bio.BCache.Bwrite | src/bio.c:111-117 | the held buffer's content reaches its sector and nothing else changes |
| Bio.BCache.MoveToFront | src/bio.c:129-134 | the six pointer writes move the buffer to the front of the ring |
| Bio.BCache.Brelse | src/bio.c:122-140 | the buffer becomes the most recently released; the cache still refines the map of sectors |
| Bio.RelinkIsToFront | src/bio.c:129-134 | next and prev stay inverse, the ring stays a permutation of the buffers, only the position of one changes |
| Bio.Recycle | src/bio.c:83-93 | recycling a clean buffer loses no content and makes no second copy of a sector |
| Bio.WriteKeepsCoherence | src/bio.c:111-117 | after a write every unheld clean buffer still equals its home sector |
| Wal.CommitTraceParts | src/log.c:189-199 | the disk states commit passes through are those of write_log, the header write, install_trans and the clear, in order |
| Wal.LogToContents | src/log.c:174-187 | write_log changes log blocks only and fills the first k with the cached content |
| Wal.InstalledSector | src/log.c:68-81 | install_trans gives each listed sector its last log block and leaves the log region alone |
| Wal.InstallAbsorbs | src/log.c:68-81 | installing over a partly installed disk gives the same disk: redo is idempotent |
| Wal.RecoveryCrash | src/log.c:114-121 | a crash at any sector write of recovery loses nothing |
| Wal.RecoverySurvivesCrashes | src/log.c:114-121 | any number of crashes during recovery ends in the home sectors of one undisturbed recovery |
| Wal.CrashBeforeCommitPoint | src/log.c:189-199 | until the header is written a crash recovers the old home sectors |
| Wal.CrashAfterCommitPoint | src/log.c:189-199 | from the header write on a crash recovers the new home sectors |
| Wal.CommitIsAtomic | src/log.c:189-199 | wherever commit is cut off, recovery yields exactly the old or exactly the new home sectors, the new ones if and only if the header was written |
| Wal.CommitIsAtomicUnderRepeatedCrashes | src/log.c:114-199 | the same with any number of further crashes during recovery |
| GroupCommit.StepKeepsInv | src/log.c:125-228 | every action of every interleaving of operations, readers, sector writes and crashes keeps the invariant, and panics only if the log or the cache is too small |
| GroupCommit.LogWriteKeepsCounted | src/log.c:211-228 | a log_write moves one unit of its operation's budget into the log or absorbs it; sectors stay distinct and within LOGSIZE |
| GroupCommit.HeaderKeepsOnDisk | src/log.c:100-112 | the header write makes every event so far durable |
| GroupCommit.CrashRecovers | src/log.c:114-121 | recovering the disk of any reachable state gives the log_writes of the committed groups and nothing else |
| GroupCommit.CrashSafety | src/log.c:125-228 | for every run with crashes: recovery gives exactly the committed prefix of log_writes, and no operation is split by it |
| GroupCommit.GroupCommitInvariant | src/log.c:125-171 | in every reachable state committing implies no outstanding operation, sectors are distinct, and n plus all unused budgets is at most LOGSIZE |
| GroupCommit.AdmitsIff | src/log.c:125-140 | after every run begin_op admits an operation if and only if the log is neither committing nor recovering nor in a panic, and the blocks logged and a full budget for every operation running and one more are at most LOGSIZE |
| GroupCommit.OperationsOverlap | src/log.c:125-140 | on an idle log an operation that has made any log_writes it may does not keep a second one out |
| GroupCommit.CommitEnds | src/log.c:145-199 | every commit under way in a reachable state ends by its own sector writes, and begin_op admits again; only a cache too small for the log stops it |
| GroupCommit.CommittedStays | src/log.c:125-228 | what one action made durable no later action loses |
| GroupCommit.PanicFreeIff | src/log.c:173-228 | on a disk with LOGSIZE home sectors, no run panics if and only if log.size > LOGSIZE and NBUF > LOGSIZE plus the readers' buffers |
| GroupCommit.FullLoad | src/log.c:173-228 | one run, for any sizes, that panics if and only if either is too small: in log_write if only the log is, in commit's first bread if one buffer is missing |
| GroupCommit.ShippedPanics | src/param.h:10-12 | with NBUF equal to LOGSIZE some run panics, whatever log.size is |
| LogHeader.HeaderRoundTrip | src/log.c:84-112 | read_head reads back what write_head wrote, whatever the block held: the count in word 0, the sectors in the words after it |
| LogHeader.FillHead | src/log.c:100-112 | the loop stores exactly the encoded header |
| LogHeader.ScanHead | src/log.c:84-95 | the loop reads exactly the encoded sector list |
| PinnedBuffers.CleanIff | src/bio.c:83-94 | a buffer can be recycled exactly while fewer than NBUF sectors are logged |
| Log.CopyBlock | src/log.c:179-186 | one block copied between log and home, one disk write, and the logged sectors otherwise as before |
| Log.Log.WriteLog | src/log.c:175-187 | the disk passes through the states of the log trace; it fails only when every buffer is pinned |
| Log.Log.WriteHead | src/log.c:101-112 | one sector write, of the encoded header |
| Log.Log.ReadHead | src/log.c:85-95 | the in-memory list becomes the one on disk |
| Log.Log.InstallTrans | src/log.c:69-81 | the disk passes through the install trace and the cache through the same contents |
| Log.Log.RecoverFromLog | src/log.c:115-121 | the disk becomes the recovered one, through the recovery trace, and nothing stays dirty |
| Log.Log.Commit | src/log.c:190-199 | succeeds exactly when the log is empty or some buffer is unpinned, and then writes exactly the commit trace |
| Log.Log.BeginOp | src/log.c:125-140 | an operation is admitted exactly when not committing and its full budget still fits; GroupCommit.AdmitsIff says which run states that is |
| Log.Log.LogWrite | src/log.c:211-228 | succeeds exactly inside a transaction with room for one more block; then the sector is recorded once and the buffer pinned |
| Log.Log.EndOp | src/log.c:145-171 | the last operation out commits the whole group; the others touch neither buffers nor disk |
| Log.OnlyLoggedBlocksDiffer | src/log.c:201-228 | outside the log region the cache differs from the disk on logged sectors only: no uncommitted block is home |
| FileTree.UsedIffOwned | src/fs.c:53-95 | under the invariant that balloc, bmap, writei and itrunc keep, a data block is marked if and only if it belongs to a file |
| FileTree.BlocksDiffer | src/fs.c:359-407 | distinct block numbers have distinct addresses, and no other file has any of them |
| FileTree.BlockFormat | src/fs.c:359-407 | where the address of every block number stands: in the inode, in the indirect block, or through the double-indirect block |
| FileTree.PlantNode | src/fs.c:359-407 | filling one empty slot changes that node of that file and no node of any file besides, at all three levels |
| FileTree.PlantSound | src/fs.c:359-407 | all files stay trees of pairwise distinct blocks marked in use |
| FileTree.PlantExtends | src/fs.c:359-407 | no data block of any file changes, and a new data block is zeros |
| FileTree.ExtendsThen | src/fs.c:359-407 | the levels of one bmap call compose |
| FileTree.GrowKeeps | src/fs.c:53-76 | bit, zeroed block and stored address together keep every file |
| FileTree.ExtendsKeepsBytes | src/fs.c:359-407 | allocation changes no byte of any file |
| FileTree.LeafWriteBytes | src/fs.c:502-508 | writing a data block changes that block of that file and no other byte of any file |
| FileTree.FreedNext | src/fs.c:415-442 | the next block itrunc meets is still in use, and not among those freed before |
| FileTree.TruncSound | src/fs.c:415-442 | truncation keeps every file a tree of distinct used blocks, and clears exactly the direct and single-indirect nodes |
| FileTree.TruncReleasesAllIff | src/fs.c:415-442 | every block of the file is released if and only if it has no double-indirect block |
| FileTree.ForgetSoundIff | src/fs.c:188-192 | an inode that loses its addresses leaves the bitmap exact if and only if it had none |
| FileBytes.PatchEdited | src/fs.c:502-508 | copying into part of one block edits exactly those bytes of that file |
| FileBytes.EditedThen | src/fs.c:502-508 | consecutive edits are one edit |
| FileBytes.EditedContent | src/fs.c:486-515 | a write at an offset within the file splices the bytes into its contents; other files' contents are the same |
| FsLayout.DinodeRoundTrip | src/fs.h:27-37 | an inode written to its slot reads back and the other seven inodes of the block are untouched |
| FsLayout.InodeFormat | src/fs.h:27-40 | the bytes of sector i / 8 + 2 that hold each field of inode i |
| FsLayout.BitFormat | src/fs.h:42-46 | the bit of the bitmap that belongs to each block |
| FsLayout.StoreInodeReads | src/fs.c:202-217 | after iupdate the inode reads as stored and every other inode as before |
| FsLayout.PutBitAt | src/fs.c:80-95 | setting or clearing the bit of one block changes the bit of no other, anywhere in the bitmap |
| FsState.GrownOk | src/fs.c:359-407 | one level of bmap with its balloc keeps the mounted file system's invariant |
| FsState.SteppedThen | src/fs.c:359-407 | a node found through a node found: the whole walk extends the file only on its path |
| FsContent.WriteOn | src/fs.c:502-508 | one turn of writei's loop extends the written prefix, in blocks that are there |
| FsContent.GrownWritten | src/fs.c:510-513 | a write that grew the file has its size and addresses on disk |
| FsContent.InPlaceWritten | src/fs.c:510-513 | after a write inside the file the on-disk inode, if it was current, is so if and only if addrs[] already led to every byte written |
| FsContent.MissingRootUnsyncs | src/fs.c:364-407 | a write that fills in an address of the inode without growing the file leaves the on-disk copy behind |
| FsContent.MappedStaysSynced | src/fs.c:486-515 | a write to a file whose blocks below its size are all there leaves its on-disk inode current |
| FsContent.IallocOkIff | src/fs.c:176-198 | ialloc keeps the invariant if and only if the inode it clears had no addresses |
| FsContent.EmptiedAddrs | src/fs.c:415-442 | itrunc leaves an address behind if and only if the file had a double-indirect block |
| FsContent.FreeingNext | src/fs.c:421-438 | bfree does not panic at any step of itrunc |
| FsContent.EmptiedBytes | src/fs.c:415-442 | itrunc changes no byte of another file, and leaves only double-indirect bytes in its own |
| FsContent.UpdateOk | src/fs.c:202-217 | iupdate keeps the invariant and makes exactly that inode's disk copy current |
| Fs.FirstClear | src/fs.c:63-72 | the first clear bit of one bitmap block |
| Fs.FileSystem.Mount | src/fs.c:269-297 | every in-memory inode is its disk copy |
| Fs.FileSystem.Balloc | src/fs.c:53-76 | the lowest clear block, marked and zeroed; the panic happens exactly when every bit is set |
| Fs.FileSystem.Bfree | src/fs.c:80-95 | clears that bit only; panics exactly on a free block |
| Fs.FileSystem.Bmap | src/fs.c:359-407 | the address of the requested block; only absent blocks on its path were filled, everything else every file sees is unchanged, and nothing at all changes if the block was there; fails only beyond MAXFILE or with every bit set |
| Fs.FileSystem.Iupdate | src/fs.c:202-217 | the on-disk inode becomes the in-memory one, no other inode's copy and no file changes |
| Fs.FileSystem.Readi | src/fs.c:458-481 | the file's bytes from off, clipped to the size; refused exactly for off past the end or a wrapping sum; on a fully mapped file it never allocates or panics and changes nothing |
| Fs.FileSystem.Writei | src/fs.c:486-515 | exactly the n bytes at off change, of this file only; the size grows as needed; mappedness is kept; the on-disk inode is current after growth, and after a write in place exactly when no address of the inode was filled in |
| Fs.FileSystem.Ialloc | src/fs.c:176-198 | on any disk: the first inode free on disk becomes an empty file of the kind asked for, every other inode and block as before; fails exactly when there is none; the invariant is kept if and only if that inode had no addresses |
| Fs.FileSystem.IallocTwice | src/fs.c:176-198 | two calls never return one inode, and both are of their kinds afterwards |
| Fs.FileSystem.Itrunc | src/fs.c:415-442 | never panics; clears exactly the bits of the direct blocks, the indirect block and its leaves; size 0, inode current on disk; all other files as they were |
| Fs.FileSystem.TruncateThenRead | src/fs.c:415-481 | a truncated file reads as empty |
| Dirents.Namecmp | src/fs.c:520-524 | the loop finds two name fields equal if and only if their strings up to NUL or the field's end are |
| Dirents.LinkThenLookup | src/fs.c:529-582 | a name linked is found under its inode; every other name is found, or not, as before |
| Dirs.ReadEntry | src/fs.c:537-539 | one directory entry, decoded; a short read only if the directory is not whole entries or the disk is full |
| Dirs.Dirlookup | src/fs.c:529-551 | the first entry in use under the name, 0 exactly when there is none; changes nothing any file shows, and nothing at all if the blocks up to the entry are there |
| Dirs.Dirlink | src/fs.c:556-582 | refused exactly for a name that is there; otherwise the first entry not in use, or one more at the end, holds the name, and no other entry and no other file changes |
| Dirs.LinkThenFind | src/fs.c:529-582 | dirlink and then dirlookup give the inode and the entry, or the disk is full |
| MkfsState.PlantedCore | src/mkfs.c:283-323 | handing out the next block keeps the image a volume of distinct blocks below freeblock, all later blocks still zero |
| MkfsState.AppendOn | src/mkfs.c:280-331 | one turn of iappend's loop extends the appended prefix and allocates no block it does not fill |
| MkfsFiles.AppendDone | src/mkfs.c:267-334 | after winode the file is its old bytes and the new ones, every other file is as it was |
| MkfsFiles.AllocDone | src/mkfs.c:220-231 | one more file, empty |
| MkfsFiles.MountOk | src/mkfs.c:155-155 | with the bitmap written, the kernel's invariant holds of the image and every file reads as mkfs stored it |
| MkfsFiles.RootTail | src/mkfs.c:148-153 | the rounded root directory reads as its entries then zeros; its last block is there if and only if the entries do not fill whole blocks |
| Mkfs.BitmapBlock | src/mkfs.c:245-256 | exactly the first n bits of the block are set |
| Mkfs.Image.constructor | src/mkfs.c:86-105 | a zeroed image, with no file, whose super block holds size, nblocks, ninodes and nlog in its four words |
| Mkfs.Image.Ialloc | src/mkfs.c:220-231 | the next inode number, a file of that kind with one link and no bytes |
| Mkfs.Image.Walk | src/mkfs.c:281-323 | the address of the block, at all three levels, allocating only what is missing on the way; usedblocks equals freeblock |
| Mkfs.Image.Iappend | src/mkfs.c:267-334 | the bytes are appended to that file and no other; gives up only when the file or the image is full |
| Mkfs.Image.WriteBitmap | src/mkfs.c:234-262 | bit b, where the kernel looks for it, is set if and only if b < used |
| Mkfs.Image.Finish | src/mkfs.c:148-155 | the finished image mounts with every file as appended |
| Mkfs.Image.Install | src/mkfs.c:135-143 | one program: its directory entry appended to the root, its bytes to its own inode |
| Mkfs.Build | src/mkfs.c:61-158 | the whole image: every program under its inode with exactly its bytes, the root directory with its entries in order |
| Boot.MountedFile | src/mkfs.c:266-334 | every installed file is fully mapped for the kernel, so reading it allocates nothing |
| Boot.BootDisk | src/log.c:52-65 | the log is where words 0 and 3 of sector 1 say, and the disk becomes the recovered one |
| Boot.InstallThenRead | src/proc.c:337-343 | mkfs, recovery and readi return exactly the program that was installed, if mkfs stayed out of the log region |
| Boot.RootEntry | src/mkfs.c:108-140 | each entry of the root directory as dirlookup decodes it: "." and ".." with the root's inode, then the programs by name |
| Boot.FindThenRead | src/mkfs.c:61-158 | mkfs, recovery, dirlookup of a name in the root directory and readi of what it finds: the first program of that name gives its bytes, "." and ".." the root directory |
| Boot.RecoveryTouches | src/log.c:114-121 | recovery of an image writes the header sector and the sectors it lists, and no other |
| Boot.BootKeepsDiskIff | src/log.c:114-121 | recovery leaves the image as it is if and only if sector size - nlog begins with a zero word |
| Boot.BlankLog | src/mkfs.c:100-105 | an image whose blocks end below the log region has an empty log and survives the boot unchanged |
| Boot.LogInFileIff | src/log.c:114-121 | if sector size - nlog is a data block of a program and the sectors it seems to list are not the program's, the program reads back if and only if the block begins with a zero word |
| Boot.DamagedProgram | src/mkfs.c:61-158 | an image with one data block and one program: mkfs puts the program into the log header's sector, and after the boot it does not read back |
| Boot.BallocInLogIff | src/fs.c:53-76 | balloc's block lies in the log region if and only if every bit below the region is set |
| Boot.FirstBalloc | src/fs.c:53-76 | the first block balloc hands out on an image of mkfs is the one after those mkfs handed out |
| Boot.FullDisk | src/mkfs.c:155-155 | with one data block, taken by the root directory, the first balloc after a boot returns the log header's sector |
| Boot.RootHole | src/mkfs.c:148-153 | a root directory of whole blocks has a last block below its size and no address for it |
| Boot.RootHoleUnsyncs | src/fs.c:510-513 | any write into that block leaves the root inode on disk without the new address |
| FreeList.ReturnKeepsList | src/umalloc.c:25-44 | free keeps the list sorted, disjoint and fully coalesced |
| FreeList.ReturnFreesExactly | src/umalloc.c:25-44 | free frees exactly the units of the block |
| FreeList.CarveKeepsList | src/umalloc.c:64-90 | malloc keeps the list, and what it hands out touches nothing left in it |
| FreeList.CarveTakesExactly | src/umalloc.c:64-90 | malloc takes exactly the units it hands out |
| FreeList.ReturnUndoesCarve | src/umalloc.c:25-90 | freeing the block just carved restores the very same list |
| Links.LinkReturn | src/umalloc.c:32-43 | the pointer writes of free turn the circular list into the circular list of the returned block's list |
| Links.LinkTakeWhole | src/umalloc.c:76-84 | taking a block whole leaves its predecessor pointing past it |
| Links.LinkTakeTail | src/umalloc.c:76-84 | taking the tail shrinks the block and gives the tail its own header |
| Umalloc.UnitsSuffice | src/umalloc.c:69-69 | the units asked for hold the request if and only if it is at most 0xFFFFFFF8, and none fewer would |
| Umalloc.StopsExactlyAt | src/umalloc.c:30-32 | free's walk stops at exactly one place of the ring, the right one, and so terminates |
| Umalloc.FreeKeepsRunning | src/umalloc.c:25-44 | live blocks stay disjoint from each other and from the list, and units are conserved |
| Umalloc.TakeKeepsRunning | src/umalloc.c:76-84 | the same for malloc's success |
| Umalloc.SbrkKeepsRunning | src/umalloc.c:47-61 | new memory lies past everything in use |
| Umalloc.ReturnMakesRoom | src/umalloc.c:86-88 | after morecore some block fits, even if the new memory merged into another block |
| Umalloc.Heap.FindPlace | src/umalloc.c:30-32 | the walk ends at the block after which bp belongs |
| Umalloc.Heap.Free | src/umalloc.c:25-44 | the block joins the list, merged with the neighbours it touches; everything else is as it was |
| Umalloc.Heap.MoreCore | src/umalloc.c:47-61 | at least MINUNITS units join the list |
| Umalloc.Heap.Malloc | src/umalloc.c:64-90 | fails exactly when nothing fits and sbrk refuses; otherwise the first fit from freep on, after new memory if none fitted |
| Sleep.StepKeepsNoLostWakeup | src/proc.c:351-405 | because sleep takes ptable.lock before releasing lk, no step makes the condition true with a sleeper and no wakeup due |
| Sleep.WakeupDischarged | src/proc.c:389-396 | only wakeup1 ends a due wakeup, and then nobody is asleep or about to be |
| Sleep.StepKeepsLocks | src/spinlock.c:25-64 | in every interleaving each lock is held by at most the process whose program counter says so |
| Sleep.NoWakeupIsLost | src/proc.c:351-405 | in every run with any number of processes nobody sleeps on a true condition with no wakeup to come |
| Sleep.NoDeadlock | src/sleep1.p:61-133 | any number of producers and consumers: a run stops only when every process has finished all its rounds |
| Procs.Ptable.AllocProc | src/proc.c:35-52 | the first unused slot becomes an embryo with the next pid |
| Procs.Ptable.Wakeup1 | src/proc.c:389-396 | exactly the processes asleep on the channel become runnable |
| Procs.Ptable.Exit | src/proc.c:190-210 | children pass to init, waking it for zombies; the parent is woken; the caller is a zombie |
| Procs.Ptable.Wait | src/proc.c:217-255 | the first zombie child is reaped and its pid returned; without one, -1 for a killed or childless caller, and otherwise sleep; ProcHistory says what that comes to over runs |
| Procs.Ptable.Kill | src/proc.c:411-428 | the first slot with that pid is marked and woken if asleep |
| ProcRuns.StepKeepsInv | src/proc.c:129-255 | fork step by step, exit, wait and kill keep the family, frame, waiter and pid invariants |
| ProcRuns.ZombiesAreReapable | src/proc.c:173-255 | in every run each zombie has a live parent, and no process asleep in wait has a zombie child |
| ProcRuns.FramesFreedOnce | src/proc.c:129-255 | in every run, forks given up at any step included, no stack or page table is freed twice, shared or lost |
| ProcRuns.PidsDistinct | src/proc.c:35-74 | in every run processes in use have distinct pids |
| ProcRuns.KillHitsFreeSlotIff | src/proc.c:411-428 | in every reachable table kill hits a free slot if and only if some free slot's pid field holds the pid |
| ProcRuns.StalePidIsNobodys | src/proc.c:35-74 | in every run a pid other than 0 left in a free slot is in no other slot |
| ProcRuns.AbortLeavesPid | src/proc.c:52-56 | a run of three steps after which kill(2) hits a free slot: a fork that got no stack leaves its pid |
| ProcRuns.MarkStays | src/proc.c:35-255 | a slot once marked killed stays marked through every run that does not reap a process in it |
| ProcRuns.KillMarksNextChild | src/proc.c:411-428 | for any pid held by a free slot: kill marks that slot, and whoever is forked there next is killed |
| ProcHistory.StepKeepsLineage | src/proc.c:129-255 | every step of fork, exit, wait and the rest keeps the record of pids handed out, exited and returned in agreement with the table |
| ProcHistory.ReapedPid | src/proc.c:217-255 | the pid wait returns was that of a ZOMBIE child of the caller, and is in no slot afterwards |
| ProcHistory.WaitReturnsChildren | src/proc.c:129-255 | in every run each pid wait returned had been returned by fork to that caller, or to a process that exited and left the child to init; the child had exited, its pid is in no slot, and no pid is returned twice |
| ProcHistory.ChildrenAccounted | src/proc.c:129-255 | in every run each pid fork returned is in a slot or was returned by wait, never both; it has exited if and only if it is a zombie's or was returned |
| ProcHistory.GivesUpWhenChildless | src/proc.c:246-250 | in every run wait returns -1 to a caller not killed only if every pid fork ever gave it has been returned |
| ProcHistory.SleepsForAReason | src/proc.c:217-255 | in every run a process asleep in wait has a child, none of its children is a zombie, and it is not killed |
| ProcHistory.KillWakes | src/proc.c:411-428 | kill marks the one process with the pid and makes it runnable if it slept; nobody else changes |
| ProcHistory.WakeupWakes | src/proc.c:389-405 | after wakeup nobody sleeps on the channel, and who did not is as before |
| ProcHistory.MarkedIffKilled | src/proc.c:35-255 | in every run without a kill of a free slot or a fork given up in a marked one, a process is marked killed if and only if kill returned 0 for its pid |
| Spinlock.PushPopMatch | src/spinlock.c:92-116 | in every run interrupts are off exactly while a pushcli is open, the last popcli gives back the flag there was, and the run panics exactly at an unmatched popcli |
| Spinlock.Processor.Push | src/spinlock.c:97-105 | the fields change as the run theorem's step does |
| Spinlock.Processor.Pop | src/spinlock.c:108-116 | the same, with both panics |
| PipeRing.WrapKeepsSlot | src/pipe.c:10-16 | because PIPESIZE divides 2^32 a wrapping counter keeps its slots |
| PipeRing.PutHolds | src/pipe.c:92-92 | a byte stored joins the queue at its end |
| PipeRing.GetHolds | src/pipe.c:115-115 | a byte fetched is the oldest |
| Pipe.Pipe.Write | src/pipe.c:78-97 | one stay under the lock: as many bytes as fit, in order; on a full ring it sleeps, or returns -1 with no reader or when killed; wakes readers when it sleeps or is done |
| Pipe.Pipe.Read | src/pipe.c:100-120 | one stay under the lock: the oldest bytes, in order; on an empty ring it sleeps, returns -1 when killed, or 0 once no writer is left |
| Pipe.Pipe.Close | src/pipe.c:59-75 | closes that end only, wakes the other side, and frees exactly when both are closed |
| PipeRuns.PipeIsFifo | src/pipe.c:59-120 | in every run of any readers and writers the bytes read are a prefix of the bytes written, with at most 512 in flight, counters wrapping |
| PipeRuns.NobodySleepsNeedlessly | src/pipe.c:59-120 | in every run without kill no reader sleeps with data present or the write end closed, and no writer with room or the read end closed |
| PipeRuns.CloseSticks | src/pipe.c:59-75 | an end is closed after a run if and only if the run closed it |
| PipeRuns.ReaderTurnIs | src/pipe.c:100-120 | after every run, what a reader's turn comes to, by what was written, read, closed and killed: -1, end of file, bytes or sleep |
| PipeRuns.WriterTurnIs | src/pipe.c:78-97 | the same for a writer: its count, -1 or sleep, and the bytes that went in |
| PipeRuns.ClosedEnds | src/pipe.c:59-75 | in every run: with the write end closed no reader is asleep, with the read end closed no writer, and nobody killed; the pipe is freed exactly when both are closed, once, with nobody in a call |
| PipeRuns.CallsReturn | src/pipe.c:78-120 | in every run each read returned its own stretch of the bytes read, each write its count exactly if all its bytes went in |
| PipeRuns.StepSleepers | src/pipe.c:78-120 | a step leaves a needless sleeper if and only if it is a killed writer filling the ring before a sleeping reader |
| PipeRuns.KilledWriterStrandsReader | src/pipe.c:78-97 | a run in which that happens |
| PageTree.RelinkNode | src/vm.c:46-90 | writing one entry changes one node of one address space and no other, at both levels |
| PageTree.RelinkSound | src/vm.c:46-90 | all address spaces stay trees of pairwise distinct frames that are not free |
| VmSpec.WithTableStep | src/vm.c:46-65 | a new page table changes no entry and no page of any space |
| VmSpec.PutEntries | src/vm.c:79-83 | exactly one virtual page's entry changes |
| VmSpec.MappedOne | src/vm.c:78-88 | one turn of mappages |
| VmDemand.DemandIs | src/vm.c:231-241 | the frames a range takes are its pages and the page tables it lies in that are missing |
| VmDemand.RunsOutAt | src/vm.c:231-238 | if the frames last exactly to some page, nothing is lost and no page is reported that is not mapped |
| VmDemand.LostAt | src/vm.c:231-241 | if a page gets the last frame and opens a page table, that frame is lost, and the page is the last one exactly if success is reported |
| VmShrink.ShrunkNext | src/vm.c:259-271 | one removal: the entry is clear, the frame free once, every other page and space as it was |
| VmShrink.RemovesAllIff | src/vm.c:250-273 | every mapped page of the range is removed if and only if none is jumped over |
| VmShrink.ContiguousShrinks | src/vm.c:250-273 | contiguous memory shrinks to exactly the pages below the new size |
| VmShrink.AllFrames | src/vm.c:278-292 | the frames of a space are its pages, its page tables and its directory |
| VmGrow.RollBack | src/vm.c:234-238 | running out of memory, allocuvm leaves the user exactly the pages, entries and contents it had |
| Vm.FreeRestored | src/vm.c:334-336 | if no space changed and no frame was lost, the free frames are exactly those there were |
| VmSpec.WithTableNoLeak | src/vm.c:55-62 | a page table made on the way leaves no frame unaccounted for |
| VmGrow.CopiesAreApart | src/vm.c:310-337 | a copied page shares its frame with nothing in any other space |
| VmGrow.CopyReads | src/vm.c:310-337 | a copied space reads as the original did, page by page, with the same flags |
| VmGrow.GrowReads | src/vm.c:221-243 | the new pages read as zeros and are present, writable and the user's; every other page and entry is as it was |
| VmGrow.ShrinkReads | src/vm.c:250-273 | every page below the new size reads as before |
| Vm.Machine.Kinit | src/kalloc.c:30-52 | exactly the frames of the range are free, each once |
| Vm.Machine.Kalloc | src/kalloc.c:83-95 | a free frame leaves the list; fails exactly when the list is empty |
| Vm.Machine.Kfree | src/kalloc.c:60-77 | the frame joins the list |
| Vm.Machine.Walkpgdir | src/vm.c:46-65 | the page table, made if asked for: found if and only if it is there or a frame is free; the frame becomes the page table, and no entry changes |
| Vm.Machine.Mappages | src/vm.c:71-90 | consecutive pages map to consecutive frames as far as page tables could be had, no other entry changes, the frames taken are the page tables opened; the remap panic only at a present entry |
| Vm.Machine.Deallocuvm | src/vm.c:250-273 | exactly the pages of the range that are mapped and not jumped over are gone and their frames free once; all else unchanged |
| Vm.Machine.Freevm | src/vm.c:278-292 | every frame of the space is free, once, and none is lost; every other space is as it was |
| Vm.Machine.Allocuvm | src/vm.c:221-243 | by the free frames and page tables before the call: enough frames, then fresh zeroed pages over exactly the range and exactly the demanded frames gone; one short with the last page opening a page table, then success reported with that page unmapped; otherwise 0 and the old memory back. A frame is lost if and only if the list runs out between a page and its page table, and then only one |
| Vm.Machine.Setupkvm | src/vm.c:129-144 | a new space with exactly the kernel's mappings and an empty user half, if and only if there are frames for the directory and its page tables; otherwise no frame is free any more |
| Vm.Machine.Copyuvm | src/vm.c:310-337 | equal flags and contents at every user page on frames of its own, no frame lost; it fails only for want of frames; then all spaces are as before, and the free list is too if and only if no frame was free or setupkvm succeeded and no page was stranded without its page table; panics only on a missing page |
| VmCases.UnmappedPage | src/vm.c:240-240 | a machine with one free frame on which allocuvm reports a page it has not mapped |
| VmCases.LostFrame | src/vm.c:329-336 | a machine with two free frames on which a failed copyuvm loses one |
| VmCases.SkippedPage | src/vm.c:259-262 | an allocuvm and a deallocuvm after which a page of the removed range is mapped |
| ShLex.WordTokens | src/sh.c:267-309 | a word token is a maximal run of word characters |
| ShLex.GetToken | src/sh.c:267-309 | kind, bounds and resumption point of the next token |
| ShParse.LineWords | src/sh.c:345-447 | on every accepted line each argument and file name of the tree is a word of the line |
| ShParse.NothingLost | src/sh.c:329-447 | on every accepted line the strings of the tree are words of the line and hold every word character of it |
| ShGrammar.TokensSpell | src/sh.c:267-309 | the tokens spell the line: nothing but white space lies outside them |
| ShGrammar.Sound | src/sh.c:328-447 | what parsecmd accepts has a derivation in the grammar, and the tree is the one it means |
| ShGrammar.Complete | src/sh.c:328-447 | what has a derivation parsecmd accepts, with that tree |
| ShGrammar.ParserIsGrammar | src/sh.c:328-447 | for every line: accepted if and only if derivable, and then every derivation means the tree built; lists, '&', pipes, blocks and redirections included |
| ShGrammar.AppendIsOut | src/sh.c:391-395 | a line with `>>` and the same with `>` have one tree |
| ShNul.StringsReadBack | src/sh.c:450-494 | after all the NULs are written every string of the tree reads back as its token |
| ShNul.Nulterminate | src/sh.c:450-494 | NULs at the ends of exactly the tree's strings |
| Shell.ParseRedirs | src/sh.c:375-398 | the loop collects the redirections the grammar gives |
| Shell.ParseArgs | src/sh.c:430-446 | the argument loop, with its syntax and too-many-arguments panics |
| Shell.ParseLine | src/sh.c:345-360 | computes the line grammar, which ShGrammar.ParserIsGrammar ties to derivations; every recursive cycle consumes a character |
| Shell.ParseCmd | src/sh.c:328-343 | accepts exactly the lines the grammar accepts whole; in the shared buffer every string then reads as it was typed |
| ShellPrint.ParsePrint | src/sh.c:328-447 | parsing the parenthesised printing of any command tree gives the tree back |
| Grep.HereMeans | src/grep.c:84-95 | matchhere holds if and only if the text has the declarative meaning of the pattern at its start |
| Grep.StarMeans | src/grep.c:98-105 | the same for matchstar |
| Grep.OneCharacter | src/grep.c:92-93 | a plain character matches exactly the texts that have it, '.' all but the empty one |
| Grep.MatchHere | src/grep.c:84-95 | terminates and decides matchhere's meaning |
| Grep.MatchStar | src/grep.c:98-105 | the loop tries the rest of the pattern after every run of c |
| Grep.Match | src/grep.c:72-81 | true if and only if the text satisfies the pattern's declarative meaning |
| Scenes.RepaintIsRedraw | src/gui.c:668-678 | erasing the old frame and drawing the last window inside its frame gives what drawing it on the clean backdrop gives |
| Scenes.MovedOnScreen | src/window.c:130-143 | the window goes exactly where asked, cut off at the screen's edges; it ends on the screen if and only if it is no larger |
| Scenes.ScenePixel | src/gui.c:452-492 | every pixel of the full redraw is that of the topmost shown window with a point there, the front window drawn with the focus, and black if there is none |
| Scenes.MovedFitsIff | src/window.c:130-143 | after a drag the window's frame is inside the buffer if and only if the position asked for keeps off the first and last rows or their corners |
| Gui.DrawInto | src/gui.c:308-450 | the points of a window, in order, in a buffer of video memory, what leaves the buffer included |
| Gui.PaintBuffers | src/gui.c:42-49 | what a drawing does to its buffer and to the one before it: the overlay, and the spill of what lies above |
| Gui.EraseFrame | src/gui.c:494-515 | the frame copied from screen_temp1 to screen_temp2, pixel by pixel in order, wherever it lies |
| Gui.EraseBuffers | src/gui.c:494-515 | a frame inside the buffer is exactly the part restored, and nothing before screen_temp2 changes |
| Gui.DrawMouse | src/gui.c:582-652 | the pointer's pixels, clipped at the screen's edges |
| Gui.RemoveMouse | src/gui.c:556-580 | what was under the pointer is restored, everywhere |
| Gui.Display.UpdateBackWindows | src/gui.c:654-666 | for any windows, whatever the buffers held: the screen shows every window in order with the last focused, and the pointer; screen_temp1 is the backdrop with what the last window spills into it; fails exactly on an empty queue |
| Gui.Display.UpdateLastWindow | src/gui.c:668-678 | if screen_temp1 is the backdrop and the old frame is inside its buffer, the same screen as the full redraw; and fit for the next repaint if the new frame is inside too |
| Gui.Display.MoveWindow | src/window.c:130-147 | the clamped move, then that screen |
| Gui.Display.Drag | src/window.c:130-147 | after every move of a drag that stays inside the buffer the screen is the full redraw |
| Gui.PointStaysBehind | src/gui.c:494-515 | a window at the top edge, one move: the composed picture differs from the full redraw |
| Gui.Display.UpdateMouse | src/gui.c:680-686 | the same screen with only the pointer redrawn, the composed picture untouched |
| WindowLinks.BypassSpells | src/window.c:101-103 | bypassing a node leaves a doubly linked list of the others in order |
| Windows.Queue.AcquireWindow | src/window.c:39-47 | the first free slot, or -1 exactly when all are used |
| Windows.Queue.AddWindow | src/window.c:49-61 | the window joins at the end and is lastWindow |
| Windows.Queue.DeleteWindow | src/window.c:85-112 | the window leaves the queue, the order of the rest kept; -1 exactly when it is not queued |
| Windows.Queue.ReorderQueue | src/window.c:149-167 | the window moves to the end; a null link is followed exactly when it is there already or not queued |

## Left out

- Device and boot code, src/ide.c and interrupt handlers: hardware; a disk write is atomic and synchronous, as src/memide.c has it.
- Path names, system calls, exec and the file table (src/fs.c from line 584 on, src/sysfile.c, src/exec.c, src/file.c): they would mostly add easy members.
- Desktop programs, widgets, fonts, the pixels of a window and the shapes of the pointer: a window is any list of points, a pointer any set of pixels of its rectangle.
- Keyboard and mouse event dispatch, and the locks around the GUI.
- src/string.c, src/ulib.c, printf, the buffering loop of grep, and running the shell's commands.
- The inode cache's reference counts and locks, iget and iput: every inode is in memory, its disk copy modelled beside it.
- Log space inside file operations: balloc, bmap and writei write through the log, whose budget and panics are modelled in GroupCommit and Log on their own.
- The scheduler, context switches and the contents of kernel stacks: a process is its table entry and the steps it takes.
- The checks the processor makes on page-table flags, the TLB, inituvm and loaduvm.
- Fs.FileSystem.Balloc: the bitmap block is searched by a helper rather than by a nested loop in the same body.
- Log.Log.RecoverFromLog: requires a well-formed header on disk, which GroupCommit.CrashSafety shows of every reachable disk; read_head itself checks nothing.
- Log.Log.ReadHead: the same.
- LogHeader.ScanHead: the same; a count above LOGSIZE makes read_head run past its array, so Boot.LogInFileIff too speaks of well-formed headers.
- Log.Log.Commit: no other process holds a buffer while the log is written; that readers may is modelled, and counted, in GroupCommit.
- Log.Log.WriteLog: the same as Log.Log.Commit.
- Log.Log.WriteHead: the same as Log.Log.Commit.
- Log.Log.InstallTrans: the same as Log.Log.Commit.
- Log.CopyBlock: the same as Log.Log.Commit.
- Log.Log.EndOp: the same for the operation that commits.
- GroupCommit.PanicFreeIff: an operation holds one buffer at a time, and readers hold buffers of sectors no operation writes; a bread that would wait for one is not a step.
- Bio.BCache.Bread: bget and iderw are one step.
- Bio.BCache.Brelse: requires that a changed buffer was written or logged, as every caller does.
- ProcRuns.PidsDistinct: pids are unbounded; nextpid's wrap after 2^31 forks is not modelled.
- Umalloc.Heap.Malloc: requires requests of at most 0x7FFFFFE8 bytes, because larger ones make the argument of sbrk negative.
- Mkfs.Image.Ialloc: requires a free inode number, because the source does not check for one.
- Mkfs.Image.Install: the same.
- Mkfs.Image.Finish: requires a root directory whose rounded size is at most MAXFILE blocks.
- Mkfs.Build: requires an inode for every program, and at most 65533 programs because a directory entry holds 16 bits of inode number.
- Fs.FileSystem.Mount: reads every inode at once, where ilock reads one on demand and panics on a free one.
- Dirs.Dirlookup: gives the inode's number, where iget also takes a reference to it.
- Dirs.Dirlink: the same.
- Vm.Machine.Allocuvm: requires that no page of the range is mapped, because mappages panics on one.
- Vm.Machine.Deallocuvm: requires an old size of at most KERNBASE, because a larger one would reach the kernel's mappings; every caller passes one.
- Vm.Machine.Mappages: requires frames in hand for user pages and a range that does not wrap, as every caller passes.
- Vm.Machine.Kfree: does not model the panic on a misaligned address or one outside physical memory; a frame is its number.
- Vm.Machine.Setupkvm: requires kernel ranges that share no page, because mappages panics on one; the source's table is such.
- Gui.DrawInto: points that fall outside video memory are dropped.
- Gui.Display.UpdateLastWindow: says only what was drawn, and not that it is the full redraw, when the old frame is outside its buffer.
- Shell.ParseArgs: the exec node is built when its arguments are complete, rather than filled in through a pointer under its redirections.
- Sleep.NoDeadlock: speaks of stopping, not of fairness or progress within a bound.
