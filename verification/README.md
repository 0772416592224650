# Verification of parts of system/extras

A Dafny model of five parts of this repository, with proofs of what they promise:

1. **The inode renumbering tool** (`ext4_utils/ext4fixup.c`): what every block write of every run leaves on disk, and
   that any series of interrupted runs followed by one that completes renumbers each directory record exactly once
   (`Fixup*.dfy`).
2. **The call handshake** between the binder thread and the native thread (`wrapper/ExecutionManager.cpp`,
   `wrapper/BnWrapper.cpp`): two semaphores, a status word, one record and the result, under every interleaving
   of single accesses (`Handshake.dfy`).
3. **SHA-1** (`ext4_utils/sha1.c`): the in-place unrolled transform and the streaming interface against FIPS 180-4,
   sections 5.1.1 and 6.1.2 (`Sha1*.dfy`).
4. **The ext4 image builder**: group geometry (`Groups.dfy`), block bitmaps and the allocator (`BlockGroup.dfy`,
   `Allocator.dfy`, `AllocPolicy.dfy`, `AllocHistory.dfy`), region lists (`Regions.dfy`, `RegionOps.dfy`), extent trees
   with the reader of the renumbering tool as their inverse (`Extents.dfy`, `ExtentWriter.dfy`), indirect blocks
   (`Indirect.dfy`, `IndirectAttach.dfy`),
   directories as bytes (`Dirents.dfy`, `DirImage.dfy`, `MakeDir.dfy`) and extended attributes as bytes (`Xattr.dfy`).
5. **The synthetic FAT volume**: cluster chains and extents (`FatVolume.dfy`), reading as a slice of one flat image
   (`FatRead.dfy`), files found through the table in that image (`FatTable.dfy`) and the pool of open files
   (`FdPool.dfy`).

`FixupExample.dfy` and `AllocExample.dfy` hold concrete images, `Sha1Example.dfy` a test vector. `Arith.dfy`,
`Bytes.dfy` and `Words.dfy` hold shared helpers. Check
everything with `dafny verify dfyconfig.toml`.

## How the model is built

Code that changes state step by step is a class or a method with loops, proved against a function of the old state;
the results are then proved about those functions and about the invariants of the classes. A crash is a machine that
stops after any chosen number of block writes: `Fixup.Power` counts the writes that are still made, and the change of
phase is two writes, as in the program. The two threads of the handshake are a step relation; native code is any
program that decides its next request from the answers so far, and the client's answers depend on the request and on how
many there were before. What an access to a dead frame does is a parameter: an error, or a number read from there.
C integers are unbounded numbers, truncated explicitly where the program's width matters (inode numbers, the SHA-1
count, 16-bit fields, 32-bit cluster and block counts).

## What the proofs found

- **A torn phase change.** The phase is recorded before the superblock is locked. A run stopped between these two
  writes at its very start leaves a later run free to mark every record of an unlocked file system: `GuardKept` says
  that this is the only way to lose the guard, `FirstWriteTears` gives the two runs. Numbers are never corrupted by it
  (`CrashSafe` has no such assumption).
- **Hard links need not be excluded.** Directories reachable by several records are renumbered correctly as long as the
  graph has no cycle.
- **Records behind a zero inode number are not renumbered**, since the walk stops there: `RenumberedExactly` says that
  these are the only ones, and `LateRecordIsStale` gives an image on which such a record ends up naming another inode.
- **The SHA-1 count** loses the high bits of a piece of 2^29 bytes or more unless the low word wraps (`CountAdvances`);
  a first piece of exactly 2^29 bytes is not counted at all (`CountLost`).
- **Long SHA-1 pieces.** The test whether a piece completes the buffer adds in 32 bits. When buffer position plus length
  reaches 2^32 it fails and the whole piece is copied behind the buffered bytes; `LastCopyFits` says that this is
  exactly when the copy leaves the buffer, `LongPieceOverruns` gives an instance.
- **The last group's header.** The check that drops a too short last group ignores that numbering starts at block 1
  for 1K blocks; `HeadersFitExactly` gives the one image length for which the header does not fit. Exactly then some
  request is answered with a block behind the end of the image (`InsideByLength`; `BuildOutside` is such an image).
- **An untouched group without free blocks** makes the multi-region loop run forever when it is reached before the
  request is served, and only then (`LoopEndsExactly`). A last group that is exactly its header is kept and is such a
  group (`BuildStalled`).
- **Extents.** When the first region of an allocation has one block, the extra block cannot be split off as intended and
  the inode loses regions; `ExtentRoundTrip` shows that this, and too many regions for the leaf, are the only ways for
  a file not to read back, and `FileIsLost` gives two groups and a file for which it happens.
- **The leaf's capacity.** The check for too many regions subtracts one byte from the block size where the header size
  was meant (`block_size - 12 / 12`): `OverrunExactly` says for which numbers of regions the records are written behind
  the leaf, `BuildOverrun` gives an image and a file.
- **Advancing** moves the position inside the current region only: `AdvanceExactly` says that it does what it should
  exactly when it stays there; moving over a whole region puts the position back at that region's start
  (`MoveRestarts`). So the pieces of a file with indirect blocks all start at its first block: on one run a file is
  attached in order exactly when it has at most 12 blocks (`OneRunAttaches`). Nothing calls this code; files are
  written with extents.
- **Triply indirect blocks** are never used: the number of blocks one leads to is computed as the square of the number
  for a doubly indirect one, a multiple of 2^32 that a 32-bit variable keeps as 0. A file that would need such a block
  stops the program with a division by zero (`NoTriplyIndirect`). With a number that is not 0 the layout would be right
  (`IndirectLayout`).
- **Setting blocks aside** does the opposite of what is asked when a region ends right behind them: they stay, and all
  the blocks behind them go (`ReserveExactly`).
- **Extended attributes** that fill a region to the last byte leave no end mark behind the entries, unless the last
  non-empty value begins with four zero bytes (`EndMarkExactly`, `AttrsReadBack`). A security context of 68 to 71 bytes
  does that to an inode of 256 bytes (`FullRegion`). Further additions are still refused, because the free space is
  computed from the sizes.
- **The test for free clusters** is made in 32 bits: `SpaceTestExactly` says when it errs, `GivenExactly` what the file
  then gets, `HugeSizePasses` and `LongFileGetsOne` give sizes. No caller passes such a size (`SmallSizesCount`).
- **The result of a call** is a local variable of the handler that returns with the first reply. With a JNI request in
  between, the store by native code and the read for the last reply both come after that: `BadAccessExactly` says that
  a call is free of such accesses exactly when native code makes no request, `OneRequestLosesResult` gives the program.
- **A log line** of the first reply follows the pointer of the record. Compiled in, it stops every call whose first
  request cleared or kept that pointer or has less than four bytes of parameters (`LogFails` in `EveryRunIsTheCall`);
  asking for the version first does (`VersionFirst`).

## Model

| member | source | states |
|---|---|---|
| FixupTheorems.NumberKeepsSlot | ext4_utils/ext4fixup.c:76-84 | a valid inode number renumbered under the larger group size names the same group and the same index in it |
| FixupTheorems.NumbersStayDistinct | ext4_utils/ext4fixup.c:76-84 | renumbering is injective on valid numbers |
| FixupTool.Machine.RecurseDir | ext4_utils/ext4fixup.c:620-778 | the recursive walk over a directory tree leaves exactly the disk, remaining power and status of the specification `Fixup.RecurseDir`, at whatever write the machine stops |
| FixupTool.Machine.WalkBuffer | ext4_utils/ext4fixup.c:675-763 | the record loop (short last record, zero inode number, recursion, mark or renumber) computes `Fixup.Walk` |
| FixupTool.Machine.EnterRecord | ext4_utils/ext4fixup.c:592-618 | whether a record is entered, and the fatal error for a name whose inode is no directory |
| FixupTool.Machine.WriteBuffer | ext4_utils/ext4fixup.c:765-773 | blocks are written back one at a time in order, each write being a possible last one |
| FixupTool.Machine.SetPhase | ext4_utils/ext4fixup.c:153-200 | the phase record and then the lock bit, as two separate writes |
| FixupTool.Machine.UpdateSupers | ext4_utils/ext4fixup.c:370-449 | every superblock gets the new number of inodes per group, the primary one keeping its lock bit |
| FixupTool.Machine.Pass | ext4_utils/ext4fixup.c:860-883 | one pass over the tree followed, only if it completes, by the change of phase |
| FixupTool.Machine.Run | ext4_utils/ext4fixup.c:785-897 | a whole run: each stage runs when the phase found on disk says so |
| FixupPass.MovedKeepsInv | ext4_utils/ext4fixup.c:765-773 | a block write keeps the invariant of a pass: each record untouched or finished, and a finished record names a finished directory |
| FixupPass.RecurseKeeps | ext4_utils/ext4fixup.c:620-778 | from any state of a pass, the recursion keeps that invariant at every cut, never fails on a well-formed tree, and finishes its directory when not cut |
| FixupRuns.RootLast | ext4_utils/ext4fixup.c:710-773 | children are written before their parents, so a finished root means that every reachable directory is finished |
| FixupRuns.RunFromStage | ext4_utils/ext4fixup.c:785-897 | a run from any persisted stage ends in a persisted stage, or completes |
| FixupTheorems.CrashSafe | ext4_utils/ext4fixup.c:860-892 | for every sequence of runs, each cut after any write, no run fails, an uncut run completes, and on completion every record was renumbered exactly once |
| FixupTheorems.NewIpgIsLeast | ext4_utils/ext4fixup.c:828 | the new number of inodes per group fills whole inode blocks, is not below the old one, and is the least such number |
| FixupTheorems.CompletedSizes | ext4_utils/ext4fixup.c:828 | after completion every superblock holds exactly that number |
| FixupTheorems.RunsKeepStage | ext4_utils/ext4fixup.c:860-892 | the renumbering invariant holds after every sequence of cut runs |
| FixupTheorems.RecordAtCut | ext4_utils/ext4fixup.c:710-763 | what each record holds at any cut in each phase, and that an unmarked subdirectory record in the updating phase means that directory is finished |
| FixupTheorems.UnmarkedMeansSubtreeDone | ext4_utils/ext4fixup.c:710-739 | in the updating phase an unmarked subdirectory record means that every directory below it, at any depth, is finished |
| FixupWrites.MarkIsHighBit | ext4_utils/ext4fixup.c:750-757 | marking and unmarking a number are setting and clearing bit 31 of its field, and a number is marked when that bit is set |
| FixupWrites.BlocksAtCut | ext4_utils/ext4fixup.c:765-773 | of a directory written back with n writes exactly the first n blocks come from the buffer |
| FixupWrites.SupersAtCut | ext4_utils/ext4fixup.c:370-449 | with n writes exactly the first (n + 1) / 2 superblocks are new, the copies unlocked |
| FixupWrites.PhaseAtCut | ext4_utils/ext4fixup.c:153-200 | the first write of a phase change records the phase, the second one locks or unlocks |
| FixupTheorems.CompletedIsFixed | ext4_utils/ext4fixup.c:785-897 | running the tool on a completed disk changes no directory |
| FixupTheorems.RenewedWellFormed | ext4_utils/ext4fixup.c:76-84 | a renumbered image is again a consistent image, on which renumbering is the identity |
| FixupTheorems.PathsPreserved | ext4_utils/ext4fixup.c:257-279 | every path of live records, as the tool walks them up to the first zero inode number, resolves to the same physical inode before and after |
| FixupTheorems.LookupExactly | ext4_utils/ext4fixup.c:693-696 | for a lookup that passes over records with a zero number, a name leads to the same inode if and only if there is none, or the record is live, or its number is in the first group, or the group size stays |
| FixupLock.MarkedMeansLocked | ext4_utils/ext4fixup.c:186-194 | while no run stops between the two writes of a phase change, a marked record means the primary superblock is locked |
| FixupLock.GuardKept | ext4_utils/ext4fixup.c:153-200 | a run keeps "renumbering implies locked" if and only if it does not stop right after its first phase record |
| FixupLock.TornExposes | ext4_utils/ext4fixup.c:153-200 | from such a stop some later cut leaves every record marked on an unlocked file system |
| FixupLock.FirstWriteTears | ext4_utils/ext4fixup.c:153-200 | two cut runs that reach that state from any unlocked image |
| FixupTheorems.RenumberedExactly | ext4_utils/ext4fixup.c:693-696 | after completion a record has its new number if and only if it lies before the first record with a zero inode number (or the number does not change); the others keep the old one |
| FixupExample.LateRecordIsStale | ext4_utils/ext4fixup.c:693-696 | an image on which a record behind a zero inode number is left naming another inode |
| FixupExample.ImageIsWellFormed | ext4_utils/ext4fixup.c:76-84 | a concrete image meets the assumptions of the crash-safety results and has a number that changes |
| Handshake.BinderKeepsInv | wrapper/BnWrapper.cpp:135-239 | each step of the binder thread, one access at a time, with the log line and the frame of the first handler, keeps the protocol invariant |
| Handshake.NativeKeepsInv | wrapper/ExecutionManager.cpp:36-149 | each step of the native thread, one access at a time, with the store of the result, keeps the protocol invariant |
| Handshake.Safety | wrapper/ExecutionManager.cpp:64-178 | at most one semaphore is posted, once; no reply is ERROR or unexpected; no answer buffer is read after it was freed; setJniResult finds the manager waiting, with the function asked for and a buffer that is there |
| Handshake.NoDeadlock | wrapper/ExecutionManager.cpp:116-178 | until the client has its result or a bad access was made, one of the two threads can move |
| Handshake.StepsRunOut | wrapper/ExecutionManager.cpp:64-178 | every step decreases a bound, so a call cannot run forever |
| Handshake.EveryRunIsTheCall | wrapper/BpWrapper.cpp:2218-2230 | however the threads interleave, the client sees WAIT4JNI once per request, in the order of the sequential execution with the k-th answer going to the k-th request; then FINISHED when no access is an error, with the result of native code if there was no request or the memory of the dead frame is preserved, and the manager is reusable; else where the call stops |
| Handshake.BadAccessExactly | wrapper/BnWrapper.cpp:135-189 | every run of a call accesses memory that is gone - the result variable, a local of the handler that returned with the first reply - if and only if native code makes a request |
| Handshake.OneRequestLosesResult | wrapper/BnWrapper.cpp:229-233 | with one request every run stops at the store of the result, or, where dead memory can be used, sends the number found there |
| Handshake.VersionFirst | wrapper/JniRemote.cpp:70-80 | a first request that keeps the pointer stops the call if and only if the log line is compiled in (`wrapper/BnWrapper.cpp:175-176`) |
| Handshake.AskingIsValid | wrapper/ExecutionManager.cpp:126-149 | for every n there is a program of n requests to which these results apply |
| Handshake.CallsEnd | wrapper/ExecutionManager.cpp:64-178 | from every manager at rest such a run exists |
| Handshake.FreedAfterNextPost | wrapper/BnWrapper.cpp:191-239 | an answer buffer is freed only after native code has read it and posted its next reply |
| Sha1Transform.WindowSlides | ext4_utils/sha1.c:41-47 | overwriting one of 16 words keeps the block equal to the last 16 words of the 80-word schedule |
| Sha1Transform.RolRotates | ext4_utils/sha1.c:35 | the macro's two shifts rotate a word to the left by 1, 5 and 30 bits |
| Sha1Transform.ScheduleWord | ext4_utils/sha1.c:46-47 | the word computed from the four slots is the next word of the schedule of section 6.1.2 of FIPS 180-4 |
| Sha1Transform.MacroIsRound | ext4_utils/sha1.c:52-56 | a round macro with renamed variables is one round of section 6.1.2 |
| Sha1Transform.ChooseIdentity | ext4_utils/sha1.c:52-53 | the form of Ch used by the macros |
| Sha1Transform.MajorityIdentity | ext4_utils/sha1.c:55 | the form of Maj used by the macros |
| Sha1Transform.Rounds01 | ext4_utils/sha1.c:161-165 | the first 20 unrolled macro calls are rounds 0 to 19 of the standard |
| Sha1Transform.Rounds2 | ext4_utils/sha1.c:166-170 | the next 20 are rounds 20 to 39 |
| Sha1Transform.Rounds3 | ext4_utils/sha1.c:171-175 | the next 20 are rounds 40 to 59 |
| Sha1Transform.Rounds4 | ext4_utils/sha1.c:176-180 | the last 20 are rounds 60 to 79 |
| Sha1Transform.Transform | ext4_utils/sha1.c:126-192 | for every block and chaining state the in-place, unrolled transform is the compression function of the standard |
| Sha1Words.PlusIsModular | ext4_utils/sha1.c:184-188 | words are added modulo 2^32 |
| Sha1Words.BigEndianIs | ext4_utils/sha1.c:41-43 | the four bytes of a word of the block as a number, the first one most significant |
| Sha1Words.WordBytesReadBack | ext4_utils/sha1.c:267-269 | the four bytes a word of the digest is written as read back as the word |
| Sha1Words.ToByteIs | ext4_utils/sha1.c:258-261 | a byte of the length given by its binary digits is that number |
| Sha1Example.DigestOfAbc | ext4_utils/sha1.c:9-11 | the definitions of the standard as written here give the first test vector of the program for "abc" |
| Sha1.Context.Update | ext4_utils/sha1.c:217-241 | the state is the hash of the whole blocks so far and the buffer the unprocessed tail, for every piece that keeps the last copy inside the buffer |
| Sha1.LastCopyFits | ext4_utils/sha1.c:231-240 | the last copy stays inside the 64-byte buffer if and only if buffer position plus length is below 2^32 |
| Sha1.LongPieceOverruns | ext4_utils/sha1.c:231-240 | the longest piece behind one buffered byte is copied over the end of the buffer |
| Sha1.CountAdvances | ext4_utils/sha1.c:227-229 | the bit count advances by 8 times the length modulo 2^64 if and only if the piece is shorter than 2^29 bytes or the low word wraps |
| Sha1.CountLost | ext4_utils/sha1.c:227-229 | a piece of 2^29 bytes at the start is not counted at all |
| Sha1.Context.PadWithZeros | ext4_utils/sha1.c:262-263 | the padding loop ends after exactly the number of zero bytes of section 5.1.1 |
| Sha1.Context.Final | ext4_utils/sha1.c:247-271 | the digest is that of the message padded with the count |
| Sha1.ShortPiecesCount | ext4_utils/sha1.c:227-229 | pieces shorter than 2^29 bytes are counted exactly |
| Sha1.HashPieces | ext4_utils/sha1.c:217-271 | any cutting of a message into short pieces gives the SHA-1 digest of FIPS 180-4 |
| Sha1.PaddingIsStandard | ext4_utils/sha1.c:258-264 | the padding is the standard one if and only if the count is 8 times the message length |
| Groups.IsPowerOf | ext4_utils/ext4_utils.c:54-63 | the loop decides whether a is b, b squared, b cubed, ... |
| Groups.BgHasSuperBlock | ext4_utils/ext4_utils.c:69-82 | which groups hold a superblock |
| Groups.MetadataIsHeader | ext4_utils/ext4_utils.c:221-247 | superblock, descriptors, reserved blocks, bitmaps and inode table fill exactly the header of the group |
| Groups.HeadersFitExactly | ext4_utils/ext4_utils.c:91-117 | every group has room for its header except, exactly, for 1K blocks with an image ending one block short of the last header |
| BlockGroup.Group.ReserveBlocks | ext4_utils/allocate.c:208-242 | bit by bit and byte by byte, the blocks are marked exactly when they were all free; otherwise the counters do not move |
| BlockGroup.Group.FreeBlocks | ext4_utils/allocate.c:244-252 | the last blocks taken are free again and the clear bits still are one interval |
| BlockGroup.Group.ReserveOverrun | ext4_utils/allocate.c:315-317 | the blocks behind the end of the image are reserved, unless the image ends inside the header |
| BlockGroup.Group.constructor | ext4_utils/allocate.c:283-318 | a new group's clear bits are exactly its free interval, which starts behind its header |
| Allocator.Blocks.constructor | ext4_utils/allocate.c:320-330 | all groups of a new image are in that state |
| Allocator.Blocks.AllocateFromGroup | ext4_utils/allocate.c:343-358 | blocks come from the front of the free interval and the "already reserved" error cannot occur |
| Allocator.Blocks.AllocateContiguous | ext4_utils/allocate.c:360-380 | the first group with room serves the whole request |
| Allocator.Blocks.AllocatePartial | ext4_utils/allocate.c:396-432 | an untouched group is taken whole, or the first fit serves the rest |
| Allocator.Blocks.AllocateMultiple | ext4_utils/allocate.c:434-458 | the regions are those of the policy `Multiple` and the groups lose exactly them |
| Allocator.Blocks.Allocate | ext4_utils/allocate.c:460-468 | the regions are those of the policy `DoAllocate` and the groups lose exactly them |
| Allocator.Blocks.FreeFrom | ext4_utils/allocate.c:244-252 | giving blocks back keeps the interval form of every group |
| Allocator.AllocateIsExact | ext4_utils/allocate.c:460-468 | on success the regions sum to the request, the free total drops by exactly that, and there is at most one region more than there are untouched groups |
| Allocator.MultipleIsExact | ext4_utils/allocate.c:434-458 | the multi-region loop gets exactly the request or fails having taken less, each round but the last using up one untouched group |
| AllocPolicy.RegionsAreChosen | ext4_utils/allocate.c:396-468 | when a request is served, its last region is at the front of the first group with room for the rest; every other region is the whole free interval of the first group without data blocks |
| AllocPolicy.OneRegionWhenItFits | ext4_utils/allocate.c:460-468 | a request that some group has room for gets one region |
| AllocPolicy.ServedExactly | ext4_utils/allocate.c:434-468 | a request is served if and only if one group has room for it or the untouched groups together have |
| Allocator.RegionsAreDisjoint | ext4_utils/allocate.c:434-458 | the blocks of the regions were free, are not free afterwards, and belong to one region only |
| Allocator.LoopEndsExactly | ext4_utils/allocate.c:434-458 | the multi-region loop ends if and only if no untouched group without free blocks comes before the untouched groups in front of it have served the request |
| Allocator.EmptyGroupStalls | ext4_utils/allocate.c:439-455 | a round that reaches an untouched group without free blocks takes nothing and changes nothing |
| AllocExample.BuildStalled | ext4_utils/ext4_utils.c:91-117 | an image whose last group is exactly its header, built by the constructor, and a request on which the loop never ends |
| AllocHistory.HistoryKeepsLayout | ext4_utils/allocate.c:208-252 | over any history of requests and returns the free interval of a group stays behind its header and ends where it did |
| AllocHistory.RequestsAreSafe | ext4_utils/allocate.c:343-468 | after any history a request gets blocks that are free and were free at the start, once each, none of which holds metadata of any group |
| AllocHistory.HandsOutExactly | ext4_utils/allocate.c:343-468 | the blocks that some history hands out are exactly those free at the start |
| AllocHistory.InsideExactly | ext4_utils/allocate.c:283-330 | on a new image every block handed out after any history lies inside the image if and only if every group has room for its header |
| AllocHistory.InsideByLength | ext4_utils/ext4_utils.c:91-117 | with the group count and length derived from the length given, every block handed out lies inside the image except, exactly, for 1K blocks with an image ending one block short of the last header |
| AllocExample.BuildOutside | ext4_utils/ext4_utils.c:91-117 | a 1K-block image one block short of the last header, built by the constructor, and a request that gets a block behind its end |
| AllocHistory.ReturnUndoes | ext4_utils/allocate.c:244-252 | returning what was taken last restores the group, but for its use count |
| AllocHistory.FreshInLayout | ext4_utils/allocate.c:283-330 | a new image meets the assumptions of these results when every header fits its group |
| AllocHistory.OversizedHeader | ext4_utils/allocate.c:283-318 | a header larger than a group is not reserved: the group's first free block is metadata |
| Regions.Allocation.GetBlock | ext4_utils/allocate.c:517-528 | the lookup from the current position |
| Regions.Allocation.DoSplitAllocation | ext4_utils/allocate.c:575-607 | the split, with its result for a boundary that is there already |
| Regions.Allocation.ReserveOobBlocks | ext4_utils/allocate.c:612-640 | which regions move to the list set aside |
| Regions.Allocation.AdvanceBlocks | ext4_utils/allocate.c:642-667 | the position moves inside the current region only |
| Regions.Allocation.ReduceAllocation | ext4_utils/allocate.c:257-281 | blocks go back from the region the list calls its last one, which is the first |
| Regions.BlockAt | ext4_utils/allocate.c:517-528 | the lookup of position k is the k-th block of the list, and fails exactly past its end |
| RegionOps.NewChainIs | ext4_utils/allocate.c:478-491 | a new allocation stands at its first block and calls its first region the last one |
| RegionOps.SplitKeepsLast | ext4_utils/allocate.c:575-607 | the region called the last one stays so through a split, being the front part if it was the one split |
| RegionOps.ReserveExactly | ext4_utils/allocate.c:612-640 | setting n blocks aside fails if and only if at most n are left, losing none; else it sets the next n aside, except that when a region ends right behind them it keeps those and sets all the others aside |
| RegionOps.MoveExactly | ext4_utils/allocate.c:642-662 | where any move ends: beyond the current region at the right offset of a later one, but in the current region |
| RegionOps.ReduceExactly | ext4_utils/allocate.c:257-281 | giving n blocks back removes the last n of the first region and nothing else |
| Extents.GetExtentEnts | ext4_utils/ext4fixup.c:512-533 | reading the records of a leaf |
| Extents.GetExtentIdx | ext4_utils/ext4fixup.c:535-567 | reading the nodes below an index node, recursively |
| Extents.GetBlockListExtents | ext4_utils/ext4fixup.c:569-590 | reading the tree of an inode, refusing a wrong magic number |
| Extents.RecordsReadBack | ext4_utils/extent.c:149-159 | records written for a list of regions read back as the blocks of the regions in order |
| Extents.PlanIs | ext4_utils/extent.c:92-98 | what becomes of the block allocated in excess, in the four cases |
| Extents.PlanSetsAside | ext4_utils/extent.c:95-98 | of more than three regions a block can always be set aside |
| Extents.InodeHoldsFour | ext4_utils/extent.c:100-109 | the records stay in the inode's 60 bytes if and only if there are at most four |
| Extents.MagicDecides | ext4_utils/ext4fixup.c:569-590 | every node written starts with 0xF30A, and a root that does not stops the reader |
| Extents.ExtentRoundTrip | ext4_utils/extent.c:75-176 | reading the inode back gives the block at each position if and only if the file is empty, or its first region has more than one block and its regions fit the inode or the leaf |
| Extents.OverrunExactly | ext4_utils/extent.c:125-159 | records are written behind the leaf block if and only if the first region has several blocks and the number of regions is above the leaf's capacity and below the block size in bytes |
| AllocExample.BuildOverrun | ext4_utils/extent.c:125-159 | an image built by the constructor and a file of 169 blocks whose records leave the leaf |
| ExtentWriter.FilesReadBack | ext4_utils/extent.c:75-176 | the same for every file whose blocks come from the allocator, on any image in the layout |
| AllocExample.FileIsLost | ext4_utils/extent.c:92-98 | two groups, the first with one free block, and a file of 50 blocks that does not read back |
| Extents.NothingIsLost | ext4_utils/extent.c:92-98 | the data blocks and the excess block are exactly the blocks allocated |
| ExtentWriter.DoInodeAllocateExtents | ext4_utils/extent.c:75-176 | allocation, reduction or leaf block, and the writing of the tree, step by step |
| ExtentWriter.FillRecords | ext4_utils/extent.c:149-159 | the loop filling in one record per region, stopping where it would leave the node |
| ExtentWriter.RegionsDistinct | ext4_utils/allocate.c:434-458 | the regions of one request lie in different groups |
| ExtentWriter.HeadIsLastTaken | ext4_utils/allocate.c:254-256 | the assumption of reduce_allocation holds: the last block of the first region was the last one taken from its group |
| ExtentWriter.ReductionFrees | ext4_utils/allocate.c:257-281 | giving the excess block back frees exactly that block |
| Indirect.IndirectBlocksNeeded | ext4_utils/indirect.c:315-346 | the count of indirect blocks, or the stop for a file that is too large |
| Indirect.ReserveAllIndirectBlocks | ext4_utils/indirect.c:283-313 | the reserve loops compute `ReserveAll` |
| Indirect.ReserveDindirectBlock | ext4_utils/indirect.c:70-85 | the loop over the indirect blocks below a doubly indirect one |
| Indirect.AdvanceKeepsValid | ext4_utils/allocate.c:642-661 | moving the position never moves it to another region |
| Indirect.ReserveAllDeals | ext4_utils/indirect.c:283-313 | one run of exactly the needed blocks is dealt out to the data list and the list set aside in attachment order |
| Indirect.IndirectLayout | ext4_utils/indirect.c:283-346 | closed forms for where block k of the file and the j-th indirect block lie, for every file that indirect blocks of the three kinds lead to |
| Indirect.IndirectPartition | ext4_utils/indirect.c:283-346 | each block of the run is in exactly one of the two lists |
| Indirect.OrderAt | ext4_utils/indirect.c:315-346 | the lists have exactly the file's length and exactly the needed count |
| Indirect.NeededExactly | ext4_utils/indirect.c:315-346 | the program stops exactly on files longer than the three kinds of indirect blocks lead to |
| Indirect.NoTriplyIndirect | ext4_utils/ext4_utils.c:99-101 | with the numbers as computed in 32 bits a triply indirect block leads to 0 blocks, so every file beyond the doubly indirect range stops the program |
| Indirect.AdvanceExactly | ext4_utils/allocate.c:642-661 | advancing by n makes block k what block n + k was, for all k, if and only if n is 0 or the move stays inside the current region |
| Indirect.MoveRestarts | ext4_utils/allocate.c:642-661 | two regions on which the block after advancing over the first is the first block again |
| Indirect.WholeRegionRestarts | ext4_utils/allocate.c:642-661 | advancing over a whole region returns success and leaves the list as it was |
| Indirect.HeadIsDirect | ext4_utils/indirect.c:283-291 | on one run the reserving makes the first 12 blocks a region of their own |
| IndirectAttach.AttachPiece | ext4_utils/indirect.c:166-217 | the loop storing the next block numbers, and the move behind them |
| IndirectAttach.FillDindirect | ext4_utils/indirect.c:111-139 | the loop over the indirect blocks below a doubly indirect one |
| IndirectAttach.FillTindirect | ext4_utils/indirect.c:141-164 | the loop over the doubly indirect blocks below the triply indirect one |
| IndirectAttach.AttachIndirect | ext4_utils/indirect.c:348-387 | attaching direct, indirect, doubly and triply indirect blocks, with its failures, and the rewind |
| IndirectAttach.SizesAre | ext4_utils/indirect.c:111-164 | the pieces of a file are the direct blocks and then as many blocks as an indirect block holds, over and over, whichever kind leads to it |
| IndirectAttach.AttachExactly | ext4_utils/indirect.c:348-387 | for any list of distinct blocks the pieces get them in order if and only if the last piece starts inside the first region |
| IndirectAttach.OneRunAttaches | ext4_utils/indirect.c:404-428 | a file on one run of the blocks it needs is attached in file order if and only if it has at most 12 blocks |
| Dirents.AddTiles | ext4_utils/contents.c:59-87 | a record added keeps the records tiling the buffer, none crossing a block, and moves the offset as the estimate does |
| Dirents.PackedEndsAtEstimate | ext4_utils/contents.c:43-57 | the records end exactly at the size estimated |
| Dirents.FinishedTiles | ext4_utils/contents.c:166-168 | the finished records tile the blocks exactly |
| Dirents.FinishedSnug | ext4_utils/contents.c:59-64 | a record is longer than its name needs only to reach the end of a block in which the next record does not fit, or of the directory |
| Dirents.FinishedAligned | ext4_utils/contents.c:43-64 | for block sizes that are multiples of 4 every record starts at a multiple of 4 and has a length that is one |
| Dirents.BlocksBeginWithRecords | ext4_utils/contents.c:68-77 | every block begins with a record |
| Dirents.NoInternalError | ext4_utils/contents.c:154-159 | the "internal error" exit is not taken, for any names of 1 to 255 bytes |
| Dirents.FinishedNames | ext4_utils/contents.c:137-164 | the records are ".", ".." and the names in order, with their types |
| DirImage.AddDentry | ext4_utils/contents.c:59-87 | the bytes of the buffer hold the records after the addition, including the patched length of the one before, for names of any length, of which as many bytes are stored as the length byte says |
| MakeDir.DentrySizeOf | ext4_utils/contents.c:43-57 | the size estimate |
| MakeDir.MakeDirectory | ext4_utils/contents.c:95-171 | the bytes of the new directory, zero outside the records, with 2 as the number of a root directory and of its parent, and the places where the inode numbers go |
| MakeDir.FillIn | ext4_utils/make_ext4fs.c:268 | storing a number through its place changes that record's number and nothing else |
| MakeDir.ReadDirectory | ext4_utils/ext4fixup.c:675-763 | the walk over the bytes of a directory |
| MakeDir.DirectoryRoundTrip | ext4_utils/contents.c:95-171 | once numbered, the bytes read back as ".", ".." and the names in order |
| MakeDir.NoLeftover | ext4_utils/ext4fixup.c:678-691 | no record of a new directory starts in the last 8 bytes, so the mending of short last records does not touch it |
| MakeDir.EntersExactly | ext4_utils/ext4fixup.c:592-618 | of a new directory the marking pass enters exactly the records of type 2, or of type 0 with the number of a directory, but for "." and ".." |
| MakeDir.NewDirectoryIsValid | ext4_utils/ext4fixup.c:675-763 | a new directory is one the renumbering passes handle: all records live, none short, nothing uncovered at the end |
| Xattr.FreeSpaceOf | ext4_utils/contents.c:258-271 | the free-space loop |
| Xattr.LastOf | ext4_utils/contents.c:277-283 | the search for the end of the entries |
| Xattr.XattrAddtoRange | ext4_utils/contents.c:359-396 | the stores of one addition, and its refusals, for any name and index |
| Xattr.FreeSpaceIsGap | ext4_utils/contents.c:258-271 | the free space is the gap between entries and values |
| Xattr.FreeSpaceBound | ext4_utils/contents.c:258-271 | whatever the bytes are, no more free space is found than bytes up to the end |
| Xattr.AddResult | ext4_utils/contents.c:359-396 | an addition works if and only if the name has at most 255 bytes and everything fits; the index is stored modulo 256, earlier attributes are unchanged and the free space drops by exactly entry plus value |
| Xattr.AddManyResult | ext4_utils/contents.c:359-396 | over any series of additions the region holds exactly the attributes added, in order |
| Xattr.AttrsReadBack | ext4_utils/xattr.h:32-43 | walking the entries returns exactly the attributes added if and only if a gap is left or the last non-empty value begins with four zero bytes |
| Xattr.EndMarkExactly | ext4_utils/xattr.h:43 | the entries end in a zero word exactly under that condition |
| Xattr.SelinuxIs | ext4_utils/contents.c:456-463 | a security context is stored with index 6 under "selinux", with its end mark |
| Xattr.FullRegion | ext4_utils/contents.c:401-420 | a security context in a new inode of 256 bytes is added if and only if it has at most 71 bytes, and then reads back if and only if it has at most 67 |
| FatRead.BufferRead | fatblock/read.c:28-50 | bytes of the buffer, zeros behind its end, the rest of the output untouched |
| FatRead.ExtentRead | fatblock/read.c:134-159 | one extent's bytes, or its error code and an untouched buffer |
| FatRead.FindExtent | fatblock/fs.c:42-100 | the next overlapping extent, none skipped, with the exact intersection; the assertions of the program hold |
| FatRead.FsRead | fatblock/read.c:161-179 | the buffer equals the range of the flat image, later extents of the list winning and gaps zero; or the code of the first extent that fails |
| FatRead.OverlapsExactly | fatblock/fs.c:62-66 | extent and range overlap if and only if the extent covers a byte of the range |
| FatRead.UncoveredIsZero | fatblock/read.c:167 | a byte that no extent covers reads as zero |
| FatRead.LastCoversIt | fatblock/read.c:169-179 | any other byte is one of the last extent of the list that covers it |
| FatRead.ReadCodeIs | fatblock/read.c:169-179 | a read fails if and only if a file in the range does |
| FatRead.FirstFailureCounts | fatblock/read.c:169-179 | its code is that of the first such file in the list |
| FatVolume.Volume.constructor | fatblock/fs.c:156-247 | the geometry: the table has an entry for each cluster and the volume is as long as table and data need |
| FatVolume.Volume.AllocExtent | fatblock/fs.c:109-154 | for every length: refused when there is no room and the 32-bit sum does not wrap into the volume, stopped when the loop would leave the table, else the 32-bit count of clusters as a chain behind the others |
| FatVolume.SpaceTestExactly | fatblock/fs.c:126-132 | the 32-bit test lets a file without room pass if and only if the clusters needed and those before them lie between q * 2^32 and q * 2^32 plus the size of the volume for some q >= 1; it never refuses a file with room |
| FatVolume.GivenExactly | fatblock/fs.c:126-142 | a file that passes gets all its clusters, or too few when the sum wraps to behind those given so far, or a count of 0 or nearly 2^32 that leads off the table when it wraps to before |
| FatVolume.HugeSizePasses | fatblock/fs.c:126-142 | a size of 2^32 clusters passes the test on every volume and leads off the table; no caller passes it, sizes being 32-bit numbers |
| FatVolume.LongFileGetsOne | fatblock/fs.c:126-142 | a size of 2^32 + 1 clusters passes and gets one cluster |
| FatVolume.SmallSizesCount | fatblock/import.c:91-132 | sizes that fit 32 bits, as the callers have them, never pass wrongly |
| FatVolume.Volume.TakeClusters | fatblock/fs.c:132-151 | the table, the next cluster and the list of extents after an allocation |
| FatVolume.ChainFollows | fatblock/fs.c:136-140 | following the table from a file's first cluster visits its clusters in order and ends |
| FatVolume.ClustersPartitioned | fatblock/fs.c:132-134 | the clusters from 2 to the next free one belong to exactly one allocation each |
| FatVolume.ExtentsApart | fatblock/fs.c:144-151 | the extents of a volume do not meet and are not empty |
| FatVolume.ExtentsInside | fatblock/fs.c:156-247 | every extent lies inside the volume |
| FatVolume.VolumeByte | fatblock/read.c:161-179 | a byte of an extent's place reads as the byte of what the extent holds |
| FatVolume.FirstSectors | fatblock/fs.c:225-236 | whatever was allocated, the volume begins with the boot sector, the info sector, the boot sector again and the table |
| FatVolume.FileAlongChain | fatblock/fs.c:109-154 | the clusters of a file's chain hold the file's bytes in order |
| FatTable.FollowVolumeIs | fatblock/fs.c:156-247 | following the table through the bytes the volume serves, entry c at byte 3 * 512 + 4 * c, is following the table in memory |
| FatTable.FileThroughChain | fatblock/read.c:161-179 | a reader that has only the bytes of the volume and a file's first cluster finds the file's bytes in order |
| FatTable.VolumeServes | fatblock/fs.c:109-154 | the table of a volume built by allocations meets the assumptions of these readers |
| FdPool.Pool.InsertHead | fatblock/fdpool.c:35-48 | linking behind the sentinel keeps the ring and puts the node first |
| FdPool.Pool.Remove | fatblock/fdpool.c:50-62 | unlinking keeps the ring and the order of the others |
| FdPool.Pool.Evict | fatblock/fdpool.c:89-95 | the node opened least recently is unlinked and closed |
| FdPool.Pool.Pooled | fatblock/fdpool.c:97-104 | the new node is first and at most four are left |
| FdPool.Pool.Touch | fatblock/fdpool.c:106-110 | a node in the pool moves to the front |
| FdPool.Pool.Open | fatblock/fdpool.c:119-138 | the list stays a ring holding exactly the open files, as many as the count says, in the order left by all opens so far |
| FdPool.PoolIsNewestFirst | fatblock/fdpool.c:97-110 | after any series of opens the list has at most four distinct files, the later opened first |
| FdPool.PoolHoldsNewest | fatblock/fdpool.c:97-104 | a file opened before is in the list if and only if fewer than four other files were opened since |

## Left out

- Real reads and writes, `/proc`, ioctls, the sparse-file library, Parcel transport and the code called by
  `dvmPlatformInvoke`: these are disks, steps and arbitrary programs here.
- `n_flag`, the bail options and the progress output of the renumbering tool; stopping anywhere is covered by the power.
- The free inode counts and the bitmap bits adjusted together with the superblocks (`ext4_utils/ext4fixup.c:281-436`),
  and the sanity checks on superblock contents: the pair of superblock and descriptor writes is not restartable, so no
  count is claimed across a stop between them. A superblock is its inodes-per-group value and its lock bit.
- The block lists of directories in the renumbering passes: a directory is its records, each knowing its block, and the
  directory's size in blocks. Reading extent lists is modelled in `Extents`; reading indirect lists is not.
- FixupTool.Machine.RecurseDir: the lookup of the directory's blocks and the check that its size is a whole number of
  blocks are not modelled; recursion is bounded by a stack depth, as the call stack is, and the results hold for every
  depth above the height of the tree.
- FixupTool.Machine.UpdateSupers: the free counts in superblocks and descriptors and the bits written to the inode
  bitmaps are not modelled.
- FixupTool.Machine.Run: the trial update of the superblocks in the sanity stage, which writes nothing, and the checks
  made by it are not modelled.
- Handshake.NativeKeepsInv: memory behind a pointer is read in one step. Service restart and the signature, array and
  character lists are not modelled, nor are nested calls on one thread; the threads are a step relation on values rather
  than threads with real semaphores.
- Handshake.BinderKeepsInv: the taint size, which is stored and sent along with the length, and log lines that only
  print fields are not steps; the arguments and the signature handed to native code are not modelled.
- Sha1.Context.Update: pieces whose last copy leaves the buffer are excluded, by the exact condition of `LastCopyFits`.
- Sha1Transform.Transform: the block is copied and its words are byte-swapped, as on little-endian machines; the
  big-endian form and the one that splits the rounds into functions are not modelled.
- Allocator.Blocks.AllocateMultiple: requests on which the program's loop does not end are excluded, by the exact
  condition of `LoopEndsExactly`; so they are in the members built on it.
- Regions.Allocation.ReserveOobBlocks: regions are kept in a sequence. The program does not update the back pointer of
  the region behind a split, which matters only if that region is removed later; the extent writer and the single-region
  use of the indirect code never do that.
- Regions.Allocation.ReduceAllocation: at most the length of the first region can be given back (or nothing, from any
  list), since beyond that the program follows a pointer to a freed or missing region.
- Groups.IsPowerOf: the base is at least 2; with base 1 the loop of the program does not end and with base 0 it divides
  by zero. Every call has base 3, 5 or 7.
- IndirectAttach.AttachIndirect: the block numbers stored for the indirect blocks themselves, and the contents of blocks
  written twice, are not modelled; neither is the attaching of the blocks reserved for resizing.
- Block numbers are assumed below 2^32 and directories below 4 GiB.
- MakeDir.MakeDirectory: allocating the inode and its blocks is not part of it; the numbers are parameters.
- MakeDir.ReadDirectory: the walk as the marking pass makes it; the branch of the other passes that mends a last record
  with at most 8 bytes behind it (`ext4_utils/ext4fixup.c:679-691`) is in `FixupTool.Machine.WalkBuffer`, and
  `MakeDir.NoLeftover` shows that a new directory does not meet it.
- Xattr.XattrAddtoRange: the entry hash, the order check (which only prints) and the choice between inode and block are
  not modelled.
- FatRead.ExtentRead: `file_read` is opaque: a host file has some content or fails with a code. Its positioning, its
  treatment of offsets past 2^32 and the check for changed files are not modelled.
- FatVolume.Volume.AllocExtent: where the loop of the program would leave the table this one stops. The import of a
  directory tree is not modelled.
- FatVolume.Volume.constructor: the contents of the boot and info sectors are not modelled, and at most 0x0FFF_FFF5 data
  clusters are assumed, which the program does not check: above that, links would read as ends of chains.
- FdPool.Pool.Open: the answer of `open` is a parameter; `fdpool_close`, which does not unlink its node, is not
  modelled.
- Memory exhaustion, reporting tools, libublock, su, playwav, benchmarks, tests, the journal, UUIDs and labels.
