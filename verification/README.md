# Verified models of QEMU's block layer, live migration, AES and bit sets

This project models, in Dafny, the parts of the QEMU tree under `s2e/qemu` whose
correctness is hardest to see from the code, and proves what they promise.

* **Copy-on-read requests** (`Clusters`, `CopyOnRead`, `CopyOnReadHistory`,
  `CopyOnReadProgress`, `BlockDevice`). Coroutines read and write one disk and yield
  at every wait and every driver call. The model is a step system over arbitrary
  interleavings; the class `BlockDriverState` runs the code between two yields in
  place and is proved to take exactly those steps.
* **RAM migration** (`Wire`, `RamStream`, `RamLoading`, `RamSafety`, `RamScan`,
  `RamSaving`). The byte stream with its CONTINUE flag and its loader, the cyclic
  dirty-page scan, and a step system in which guest stores fall between clearing a
  dirty bit and reading the page, even between two bytes of one page.
* **Disk migration** (`DiskMigration`, `DiskOutcome`, `DiskDirtyPass`,
  `BlockMigration`, `BlockStream`, `BlockLoading`, `DirtyBitmap`). Asynchronous bulk
  and dirty reads that complete in any order, the queue of finished reads, the final
  synchronous pass, the stream, its loader and the dirty bitmap. A submission number
  on each read, which only the proofs look at, tells which read of a chunk is the
  newest.
* **AES** (`AesField`, `AesWords`, `AesCipher`, `AesTables`, `AesKeys`, `AesCbc`,
  `AesExamples`). The table-driven cipher against the Cipher of section 5.1 and the equivalent
  inverse cipher of section 5.3.5 of FIPS 197, the key schedules against the Key
  Expansion of section 5.2, and chaining (section 6.2 of NIST SP 800-38A) with
  partial blocks.
* **Request merging and byte I/O** (`Multiwrite`, `SectorIo`).
* **Bottom halves, the output buffer and bit sets** (`BottomHalves`,
  `BottomHalfRuns`, `BufferedFile`, `Words`, `Bitmaps`).

`Wrappers`, `Sectors` and `Arithmetic` hold what several of these share.

What comes from outside is a parameter: the order of steps, the driver's answers and
failures, guest writes, the rate limit (a number of blocks or pages), the answers of
the migration backend, and the contents the destination starts with. The AES boxes
are a pair of byte functions of which the second undoes the first; the word tables
are defined from them by the equations in the source's comment.

## Findings

Places where the code does not do what its role suggests. Each states the exact
condition under which the code is right, and most name an input on which it is not.

* A batch of writes sorted by start is merged wrongly exactly when the end of an
  enclosing request is cut off by a later, shorter one that it is merged with
  (`Multiwrite.MergeExact`, `Multiwrite.EnclosingRequestLosesTail`).
* After decrypting a partial last block, the chaining vector is the decrypted block
  and not the cipher block. Both sides agree for every cipher exactly on whole
  blocks (`AesCbc.ChainingVectorsAgree`, `AesCbc.PartialBlockDisagrees`).
* The first search for a dirty page never ends when no page is dirty
  (`RamSaving.SearchStops`). `ram_save_live` does not reach this input, because its
  first stage marks every page.
* The bulk phase of disk migration sets no in-flight bit, so a bulk read can be
  overtaken by the dirty pass's read of the same chunk, and the destination keeps
  old data (`DiskOutcome.OvertakenBulkRead`). A finished run is right exactly when
  of every chunk the last read to complete agrees with the last one submitted
  (`DiskOutcome.MigrationExact`); completions in order are enough
  (`DiskOutcome.MigrationPreservesDisks`), and after the bulk phase the in-flight
  bits guarantee them (`DiskDirtyPass.OneEachInOrder`).
* A queue that the rate limit kept from being flushed is dropped after the last
  stage (`DiskOutcome.LeftoverDropped`). With completions in order that is harmless
  for every destination exactly when each clean chunk waiting there had been sent
  before with the same content (`DiskOutcome.LeftoverExact`).
  `DiskOutcome.StageThreeExact` covers both faults at once.
* Switching dirty tracking on twice zeroes the count but keeps the bitmap; the count
  is then right exactly when no bit was set (`DirtyBitmap.DirtyTracker.SetTracking`).
* The dirty bitmap is allocated in bytes and used in words of eight bytes. All its
  words are allocated exactly when the number of bytes is a multiple of eight
  (`DirtyBitmap.AllocationExact`, `DirtyBitmap.OneSectorOverruns`).
* A full page in the RAM stream for a block that is not there is written to a null
  address, where a uniform page is refused (`RamStream.UnknownBlock`,
  `RamStream.NothingToContinue`).
* For zero bits the one-word forms of the bitmap predicates look at a whole word and
  agree with the loops only for the words `Bitmaps.NoBits` names.
* When a flush of the output buffer is ended by a failing answer, the write that
  triggered it still sends its own bytes, past those in the buffer
  (`BufferedFile.FailedFlushReorders`). `BufferedFile.PutExact` gives the condition.
  If the failing answer is zero, no error is recorded either, not even by
  `qemu_fflush` (`BufferedFile.ZeroAnswerReorders`, `BufferedFile.WriteOutExact`).

## Model

| member | source | states |
|---|---|---|
| Clusters.RoundingIsClusterClosure | s2e/qemu/block.c:1305-1321 | a sector is in the rounded range if and only if it shares a cluster with a sector of the range |
| Clusters.OverlapDetectsSharedCluster | s2e/qemu/block.c:1323-1350 | although only the newcomer's range is rounded, the test finds a stored request if and only if both touch a common cluster |
| Clusters.NoOverlapMeansDisjoint | s2e/qemu/block.c:1323-1350 | for every length, zero included, ranges the test lets through have disjoint rounded ranges |
| CopyOnRead.FirstOverlap | s2e/qemu/block.c:1352-1367 | the scan returns a request that overlaps, or none when no tracked request does |
| CopyOnReadHistory.NewestOverlap | s2e/qemu/block.c:1352-1367 | a request that has to wait waits for the newest of those it overlaps |
| CopyOnRead.AdmitExclusive | s2e/qemu/block.c:1336-1370 | a request that found no overlap, or on entry saw no copy-on-read in flight, joins the tracked list without breaking exclusion |
| CopyOnRead.WriteBackInvisible | s2e/qemu/block.c:1675-1688 | writing the bounce buffer back leaves the guest-visible content of every sector as it is |
| CopyOnRead.BounceUntouched | s2e/qemu/block.c:1336-1370 | no image write reaches a sector that another request holds in its bounce buffer |
| CopyOnRead.StepInv | s2e/qemu/block.c:1275-1370 | every step of every coroutine and of the driver keeps the whole invariant |
| CopyOnRead.RunInv | s2e/qemu/block.c:1710-1767 | the invariant holds after every run |
| CopyOnRead.StepContent | s2e/qemu/block.c:1837-1847 | one step changes what the guest sees of a sector only if it is a guest write reaching it, and then to the sector of the submitted data at that place, or to zeroes |
| CopyOnReadHistory.RunContent | s2e/qemu/block.c:1644-1705 | over every run what the guest sees is what it saw at first overlaid with the data of the submitted writes, told from the steps alone, in the order they reached the image |
| CopyOnReadHistory.WriteResult | s2e/qemu/block.c:1814-1860 | a guest write that finishes, with no other guest write on its range, leaves exactly its data visible |
| CopyOnReadHistory.ReadResult | s2e/qemu/block.c:1759-1767 | a read that finishes returns for each sector what the guest saw when the driver read it |
| CopyOnRead.RunExclusive | s2e/qemu/block.c:1336-1370 | in every reachable state no tracked request touches a cluster of another tracked copy-on-read |
| CopyOnRead.NeedsCopyExact | s2e/qemu/block.c:1743-1753 | the branch on the answer of the allocation query asks for a copy if and only if some sector of the request is not allocated |
| CopyOnReadHistory.CopyOnReadResult | s2e/qemu/block.c:1743-1757 | a finishing copy-on-read returns what the guest sees at that moment, and its whole range is in the image |
| CopyOnReadHistory.MissingIsCopied | s2e/qemu/block.c:1746-1754 | if a sector of the range was missing when the allocation query was answered, every sector of the clusters touched is in the image when the request ends |
| CopyOnReadHistory.ZeroesWrittenBack | s2e/qemu/block.c:1681-1688 | the fetched clusters are written back as zeroes if and only if the driver can and they are |
| CopyOnReadHistory.RequestOutcome | s2e/qemu/block.c:1759-1767 | a request that ends tells whether it failed |
| CopyOnRead.NoDeadlock | s2e/qemu/block.c:1336-1370 | while a request is unfinished some step is possible, and a sleeper's step belongs to the other, still tracked, request it waits for |
| CopyOnReadProgress.RunBounded | s2e/qemu/block.c:1336-1370 | without new requests, and with a driver that does not do a sector twice, every run is finite: no longer than a measure of the state it starts from |
| CopyOnReadProgress.OnlyDoneStops | s2e/qemu/block.c:1336-1370 | such a run can go on, without a failure, until every request is done |
| CopyOnReadProgress.AllFinish | s2e/qemu/block.c:1336-1370 | from every state that meets the invariant such a run finishes all requests |
| BlockDevice.BlockDriverState.FindOverlap | s2e/qemu/block.c:1352-1367 | the list walk finds the overlap the specification finds |
| BlockDevice.BlockDriverState.AdmitOrWait | s2e/qemu/block.c:1336-1370 | the request is tracked or put to sleep on the overlapping one, as the step system admits it; on a retry the list is scanned whatever the count |
| BlockDevice.BlockDriverState.SubmitRequest | s2e/qemu/block.c:1710-1741 | a new request up to its first yield is one step, and the invariant holds again |
| BlockDevice.BlockDriverState.ResumeRequest | s2e/qemu/block.c:1352-1370 | a woken request repeats the scan unconditionally, as one step |
| BlockDevice.BlockDriverState.AllocationAnswered | s2e/qemu/block.c:1743-1757 | the answer to the allocation query is one step |
| BlockDevice.BlockDriverState.ClustersFetched | s2e/qemu/block.c:1675-1688 | the fetched clusters are written back as data or as zeroes, as one step |
| BlockDevice.BlockDriverState.RequestEnds | s2e/qemu/block.c:1275-1279 | ending a request, with or without an error, is one step: it leaves the list, wakes its waiters and keeps the in-flight count |
| SectorIo.Device.Pread | s2e/qemu/block.c:1526-1569 | the bytes of the range are returned; failure if and only if the range leaves the device |
| SectorIo.Device.PreadAligned | s2e/qemu/block.c:1548-1568 | the same from a sector boundary on |
| SectorIo.Device.Pwrite | s2e/qemu/block.c:1571-1618 | the contents become the old ones overlaid with the buffer; failure if and only if the range leaves the device, and then nothing outside the range has changed |
| SectorIo.Device.Patch | s2e/qemu/block.c:1580-1596 | read, change and write back of one sector overlays exactly the bytes given |
| SectorIo.Device.PwriteRest | s2e/qemu/block.c:1597-1617 | the part from a sector boundary on overlays exactly its bytes |
| SectorIo.ReadAfterWrite | s2e/qemu/block.c:1526-1618 | a read after a write sees the new bytes where the ranges meet and the old ones elsewhere, for every overlap |
| SectorIo.OverlayTwice | s2e/qemu/block.c:1571-1618 | two adjacent overlays are one |
| Multiwrite.IovConcat | s2e/qemu/cutils.c:180-216 | appending pieces up to a size appends exactly that many cells |
| Multiwrite.MergedCells | s2e/qemu/block.c:2957-2976 | a merged request holds the first one's cells before the second's start, then all of the second's |
| Multiwrite.PiecesFit | s2e/qemu/block.c:2953-2955 | no output request has more pieces than a vector may have |
| Multiwrite.PairMerges | s2e/qemu/block.c:2944-2955 | two requests become one if and only if the second starts within or right behind the first and a vector can hold their pieces and one more |
| Multiwrite.MergeKeeps | s2e/qemu/block.c:2933-2987 | wherever the last write is not cut off, the merged batch leaves the same cell as the sorted one |
| Multiwrite.MergePreserves | s2e/qemu/block.c:2933-2987 | if no write is cut off, issuing the merged requests leaves the same disk as issuing the sorted ones, whichever merges the vector limit refuses |
| Multiwrite.MonotoneEndsLoseNothing | s2e/qemu/block.c:2933-2987 | sorted requests with non-decreasing ends lose nothing |
| Multiwrite.LostIsWrong | s2e/qemu/block.c:2957-2976 | where a write is cut off, the merged batch leaves what was there before |
| Multiwrite.MergeExact | s2e/qemu/block.c:2933-2987 | merging is right everywhere if and only if no write is cut off |
| Multiwrite.EnclosingRequestLosesTail | s2e/qemu/block.c:2957-2976 | three sectors followed by one inside them: the third sector is lost |
| Multiwrite.MergeNext | s2e/qemu/block.c:2944-2984 | one turn of the loop adds the request to the last output request or makes it the next one |
| Multiwrite.MultiwriteMerge | s2e/qemu/block.c:2933-2987 | the first requests of the array, as many as the result says, are the merged batch |
| DirtyBitmap.ChunksMeetRange | s2e/qemu/block.c:1486-1495 | a non-empty range touches exactly the chunks that hold one of its sectors |
| DirtyBitmap.EmptyRange | s2e/qemu/block.c:1486-1495 | an empty range still touches the chunk of its sector, unless that is the first of a chunk other than chunk 0 |
| DirtyBitmap.DirtyTracker.SetTracking | s2e/qemu/block.c:3764-3783 | switching on from off, or off, starts clear; switching on again leaves the count right if and only if no bit was set |
| DirtyBitmap.DirtyTracker.SetDirty | s2e/qemu/block.c:1486-1512 | exactly the chunks of the range are set or reset, and the count stays the number of set bits |
| DirtyBitmap.DirtyTracker.GetDirty | s2e/qemu/block.c:3785-3796 | true if and only if tracking is on, the sector is on the device and its chunk is set |
| DirtyBitmap.DirtyExact | s2e/qemu/block.c:1486-1512 | over every sequence of writes and resets the set of dirty chunks holds a chunk if and only if it was written after its last reset |
| DirtyBitmap.ApplyOps | s2e/qemu/block.c:1486-1512 | calls on a tracker leave exactly that set in its bitmap |
| DirtyBitmap.DirtySince | s2e/qemu/block.c:3785-3796 | after any calls a sector is reported dirty if and only if its chunk was written after its last reset |
| DirtyBitmap.AllocatedLeast | s2e/qemu/block.c:3771-3773 | the bytes allocated are the least number with a bit for every chunk |
| DirtyBitmap.AllocationExact | s2e/qemu/block.c:3770-3775 | the words of all chunks are allocated if and only if the number of bytes is a multiple of eight |
| DirtyBitmap.OneSectorOverruns | s2e/qemu/block.c:3770-3775 | a disk of one sector gets one byte for a word of eight |
| RamSaving.SplatExact | s2e/qemu/arch_init.c:119-132 | a word equals the splatted byte if and only if all its bytes do |
| RamSaving.IsDupPage | s2e/qemu/arch_init.c:119-132 | true if and only if all bytes of the page are equal |
| RamStream.SizesRoundTrip | s2e/qemu/arch_init.c:400-433 | the size-table loop consumes exactly the entries written and accepts them |
| Wire.Be64Bytes | s2e/qemu/savevm.c:801-813 | the eight bytes of a number, most significant first |
| RamStream.SizesExact | s2e/qemu/arch_init.c:400-433 | the table of any layout is accepted, and exactly consumed, if and only if every block of it is in the local list with the same name and length; otherwise it is refused |
| RamStream.HeaderRoundTrip | s2e/qemu/arch_init.c:354-382 | address, flags and block name are read back, the name taken from the remembered block when CONTINUE is set |
| RamStream.PageRoundTrip | s2e/qemu/arch_init.c:435-471 | a page record, full or uniform, is loaded as the page it was made from |
| RamStream.RecordRoundTrip | s2e/qemu/arch_init.c:384-479 | every record written is applied as that record, the remembered block equals the saver's, and the rest of the stream is untouched |
| RamStream.RecordBytes | s2e/qemu/arch_init.c:152-175 | the bytes of each record in numbers: address and flags, name unless continued, content |
| RamStream.UnknownBlock | s2e/qemu/arch_init.c:435-471 | a uniform page for a block that is not there is refused, a full page faults |
| RamStream.NothingToContinue | s2e/qemu/arch_init.c:362-368 | the same for a continued page when no block was named before |
| RamStream.StreamRoundTrip | s2e/qemu/arch_init.c:384-479 | over any number of stages, loading the bytes gives the replay of the records |
| RamLoading.RamLoader.Find | s2e/qemu/arch_init.c:371-378 | the list walk finds the block of that name |
| RamLoading.RamLoader.HostFromStream | s2e/qemu/arch_init.c:354-382 | the remembered block, or the one named, or the specified error |
| RamLoading.RamLoader.StorePage | s2e/qemu/arch_init.c:435-471 | a uniform or a full page is put in its place and the block remembered, as specified, or the specified error is returned |
| RamLoading.RamLoader.ReadSizes | s2e/qemu/arch_init.c:400-433 | the loop accepts or refuses the table as specified |
| RamLoading.RamLoader.LoadOne | s2e/qemu/arch_init.c:394-475 | one turn updates memory and the remembered block as specified, or fails with the specified error |
| RamLoading.RamLoader.Load | s2e/qemu/arch_init.c:384-479 | one load call applies the records up to the end marker |
| RamSafety.StepInv | s2e/qemu/arch_init.c:147-180 | after every step each page is dirty, being saved, or equal to what the stream so far replays to |
| RamSafety.RunInv | s2e/qemu/arch_init.c:137-195 | the same over every interleaving of guest stores and saver steps |
| RamSafety.DrainedEqual | s2e/qemu/arch_init.c:335-345 | with nothing dirty and nothing in progress the replay is the source's memory |
| RamSafety.MigrationPreservesRam | s2e/qemu/arch_init.c:267-352 | for every run that ends drained, loading the bytes gives the destination the source's memory, whatever it held |
| RamScan.WalkCovers | s2e/qemu/arch_init.c:182-189 | one cycle of the walk visits every page of every block |
| RamScan.WalkOnce | s2e/qemu/arch_init.c:182-189 | and no page twice |
| RamScan.WalkReturns | s2e/qemu/arch_init.c:182-189 | and ends where it began |
| RamScan.FlatNext | s2e/qemu/arch_init.c:182-189 | the walk goes through the pages in the order of the list, from the last to the first |
| RamSaving.SendKeepsInv | s2e/qemu/arch_init.c:147-178 | sending a page keeps the migration invariant |
| RamSaving.SendIsRun | s2e/qemu/arch_init.c:147-178 | sending a dirty page undisturbed is a run of the step system: the bit is cleared, the bytes compared and, if they differ, copied, and the record sent |
| RamSaving.EncodeAppend | s2e/qemu/arch_init.c:152-175 | the bytes written so far are the encoding of the records so far |
| RamSaving.RamSaver.SendPage | s2e/qemu/arch_init.c:147-178 | clears the page's dirty bit, appends its record and bytes, and keeps the invariant |
| RamSaving.RamSaver.FindDirty | s2e/qemu/arch_init.c:137-191 | the search stops at the first dirty page in cyclic order, or reports none if and only if no page is dirty |
| RamSaving.RamSaver.RamSaveBlock | s2e/qemu/arch_init.c:137-195 | sends exactly the first dirty page in cyclic order and returns 1 or the page size; returns zero, changing nothing, if and only if no page is dirty |
| RamSaving.SearchStops | s2e/qemu/arch_init.c:137-191 | the search ends if and only if a page was sent before or some page is dirty |
| RamSaving.RamSaver.SaveRemaining | s2e/qemu/arch_init.c:199-215 | counts the dirty pages |
| RamSaving.RamSaver.Begin | s2e/qemu/arch_init.c:282-308 | stage 1 marks every page, forgets the position and writes the size table; the invariant holds for every destination |
| RamSaving.RamSaver.Iterate | s2e/qemu/arch_init.c:310-325 | sends as many pages as the rate limit allows and are dirty, no fewer, and keeps the invariant |
| RamSaving.RamSaver.Finish | s2e/qemu/arch_init.c:338-347 | the drain loop ends, no page is dirty, and the records replay to the source's memory |
| DiskMigration.StepInv | s2e/qemu/block-migration.c:187-260 | after every step, whatever the order of completions, each chunk behind the bulk cursor is dirty, or the read of it that was submitted last shows its data |
| DiskMigration.RunInv | s2e/qemu/block-migration.c:365-477 | the same over every run |
| DiskMigration.LastWins | s2e/qemu/block-migration.c:638-698 | a sector ends up as the last message about its chunk says |
| DiskOutcome.StageThreeExact | s2e/qemu/block-migration.c:602-609 | with the guest stopped and all reads finished, whatever completed first and whatever is left in the queue: every destination gets the source's disks if and only if, of each clean chunk, the read sent last agrees with the one submitted last |
| DiskOutcome.FinishedExact | s2e/qemu/block-migration.c:602-609 | when nothing is left, the replay is the source's disks if and only if the last read of each chunk to complete agrees with the last one submitted |
| DiskOutcome.MigrationExact | s2e/qemu/block-migration.c:539-624 | the same for every run from the start: every interleaving of guest writes, marks, reads, completions in any order and flushes |
| DiskOutcome.MigrationPreservesDisks | s2e/qemu/block-migration.c:539-624 | every run with completions in order and the queue flushed before the final pass leaves the destination with the source's disks |
| DiskOutcome.OrderedAgrees | s2e/qemu/block-migration.c:602-609 | completions in order and an empty queue meet the condition of stage 3 |
| DiskOutcome.LeftoverExact | s2e/qemu/block-migration.c:447-477 | with completions in order, dropping the queue is harmless for every destination if and only if each clean chunk in it had been sent before with the same content |
| DiskOutcome.LeftoverDropped | s2e/qemu/block-migration.c:517-537 | a run whose only read stays in the queue: nothing is dirty, and the destination keeps what it held |
| DiskOutcome.OvertakenBulkRead | s2e/qemu/block-migration.c:252-260 | a run in which a bulk read is overtaken: everything is finished and the destination has the overwritten sector |
| DiskDirtyPass.BulkReads | s2e/qemu/block-migration.c:206-260 | a bulk read is of exactly the sectors the cursor passes |
| DiskDirtyPass.BulkEnds | s2e/qemu/block-migration.c:206-260 | the bulk pass of a device is through exactly when it has taken as many steps as the device has chunks, and never takes more |
| DiskDirtyPass.DirtyPassKeepsApart | s2e/qemu/block-migration.c:375-413 | with the bulk phase done and drained, every run keeps the reads under way of different chunks, and the in-flight bits tell which |
| DiskDirtyPass.OneEachInOrder | s2e/qemu/block-migration.c:375-413 | so every completion in such a run is in order |
| DiskDirtyPass.DrainedBulkPreservesDisks | s2e/qemu/block-migration.c:539-624 | if the bulk reads completed in order and were drained, whatever follows leaves the destination with the source's disks once finished, with nothing assumed of later completions |
| BlockMigration.BlkMigState.constructor | s2e/qemu/block-migration.c:271-303 | the state in which the step system starts, with exact counters |
| BlockMigration.BlkMigState.SaveDeviceBulk | s2e/qemu/block-migration.c:206-260 | one bulk step of the device, or none at its end; true if and only if the cursor has reached the end |
| BlockMigration.BlkMigState.SaveBulkedBlock | s2e/qemu/block-migration.c:319-354 | a bulk step of the first device not completed; false if and only if all are through |
| BlockMigration.BlkMigState.ReadCallback | s2e/qemu/block-migration.c:187-204 | any finished read, in any order, moves to the queue as one step; its in-flight bit is cleared and the counters stay exact |
| BlockMigration.BlkMigState.DrainAll | s2e/qemu/block-migration.c:375-377 | by steps of the protocol all reads finish, in any order, while guest writes under way land and mark chunks in between; no in-flight bit is left |
| BlockMigration.BlkMigState.FlushBlocks | s2e/qemu/block-migration.c:447-477 | by flush steps the queue goes to the stream in order, exactly as far as the limit allows |
| BlockMigration.BlkMigState.SaveDeviceDirty | s2e/qemu/block-migration.c:365-430 | by steps of the protocol, the last of which submits or sends a dirty chunk that has none before it on the device, after waiting if that chunk is being read; true only if the device has none; chunks the guest marks during a wait are excepted |
| BlockMigration.BlkMigState.SaveDirtyBlock | s2e/qemu/block-migration.c:432-445 | by steps of the protocol, the last of which handles the first dirty chunk of the first device that has one; false only if every dirty chunk was marked by the guest during a wait of this pass |
| BlockMigration.BlkMigState.StageThreePass | s2e/qemu/block-migration.c:602-609 | the final loop sends each dirty chunk once more and ends with none dirty; every destination then has the source's disks if and only if every clean chunk was last sent as it was last read |
| BlockStream.RecordRoundTrip | s2e/qemu/block-migration.c:87-101 | every record written is loaded as that record and nothing else is read |
| BlockStream.RecordBytes | s2e/qemu/block-migration.c:87-101 | the bytes of each record in numbers |
| BlockStream.UnknownDevice | s2e/qemu/block-migration.c:644-690 | a record for an unknown device, or without a known flag, is refused |
| BlockStream.StreamRoundTrip | s2e/qemu/block-migration.c:638-698 | loading the bytes of a stream applies its records in order |
| BlockStream.CarriedDelivered | s2e/qemu/block-migration.c:669-682 | loading the record of a read writes exactly the sectors of its chunk that are on the disk, the short last chunk included |
| BlockStream.RecordsTransmit | s2e/qemu/block-migration.c:87-101 | the records built from reads that are whole and on the disks carry exactly these reads, in order |
| BlockStream.StreamDelivers | s2e/qemu/block-migration.c:638-698 | any stream that carries the reads, with any padding, progress notes and section ends, loads to their replay |
| BlockStream.RunDelivers | s2e/qemu/block-migration.c:539-701 | for every run, the bytes written for the reads it sent load without error to their replay |
| BlockStream.StreamExact | s2e/qemu/block-migration.c:539-701 | the bytes of a finished run load to the source's disks if and only if the last read of each chunk to complete agrees with the last one submitted |
| BlockStream.StreamPreservesDisks | s2e/qemu/block-migration.c:539-701 | with completions in order, the bytes of a finished run load to the source's disks |
| BlockLoading.BlockLoader.WriteSectors | s2e/qemu/block-migration.c:669-682 | exactly the sectors of the block that are on the disk are written |
| BlockLoading.BlockLoader.LoadDevice | s2e/qemu/block-migration.c:644-685 | a device record is applied or refused as specified, the remembered size being that of the remembered device |
| BlockLoading.BlockLoader.Load | s2e/qemu/block-migration.c:626-701 | one load call writes the records up to the end marker to the disks, or fails with the specified error |
| AesField.XtimeIsConditional | s2e/qemu/aes.c:46-58 | the branch-free doubling used in the proofs is the doubling of section 4.2.1 of FIPS 197 |
| AesField.InvMixUndoesMix | s2e/qemu/aes.c:46-58 | InvMixColumn undoes MixColumn on every column |
| AesField.InvMixColumnLinear | s2e/qemu/aes.c:854-876 | InvMixColumn of a sum is the sum of the InvMixColumns |
| AesCipher.InvRoundUndoesRound | s2e/qemu/aes.c:1171-1200 | an inverse round with the transformed key undoes a round |
| AesCipher.InverseCipher | s2e/qemu/aes.c:832-878 | for every round count and key states the equivalent inverse cipher undoes the cipher |
| AesTables.EncryptRoundIsRound | s2e/qemu/aes.c:981-1036 | four table words are one round on the state |
| AesTables.DecryptRoundIsInvRound | s2e/qemu/aes.c:1172-1227 | four inverse table words are one round of the equivalent inverse cipher |
| AesTables.EncryptLastIsFinalRound | s2e/qemu/aes.c:1042-1069 | the masked last words are the final round |
| AesTables.DecryptLastIsInvFinalRound | s2e/qemu/aes.c:1233-1260 | the masked last words are the final inverse round |
| AesTables.Encrypt | s2e/qemu/aes.c:885-1070 | the loop of two rounds a turn computes the Cipher of FIPS 197 |
| AesTables.Decrypt | s2e/qemu/aes.c:1076-1261 | the loop computes the equivalent inverse cipher |
| AesKeys.RconTable | s2e/qemu/aes.c:723-726 | the ten round constants are the powers of x in the field |
| AesKeys.AesKey.Fill128 | s2e/qemu/aes.c:756-774 | the loop fills 44 words with the Key Expansion |
| AesKeys.AesKey.Fill192 | s2e/qemu/aes.c:776-796 | the loop fills 52 words with the Key Expansion |
| AesKeys.AesKey.Fill256 | s2e/qemu/aes.c:798-824 | the loop fills 60 words with the Key Expansion |
| AesKeys.AesKey.SetEncryptKey | s2e/qemu/aes.c:731-827 | exactly 4(Nr+1) words hold the Key Expansion, the first of them the key bytes, most significant first; any other key length is refused and changes nothing |
| AesKeys.ScheduleSpellsKey | s2e/qemu/aes.c:752-755 | the first words of the schedule have the bytes of the user key, most significant first |
| AesExamples.ExpandedWord | s2e/qemu/aes.c:756-774 | the first expanded word of appendix A.1 of FIPS 197 |
| AesExamples.Masks256 | s2e/qemu/aes.c:798-824 | the rotated and the substituted word of appendix A.3 |
| AesExamples.FirstAddition | s2e/qemu/aes.c:897-904 | the first key addition of appendix B |
| AesExamples.FirstRound | s2e/qemu/aes.c:981-1011 | the first round of appendix B |
| AesKeys.AesKey.ReverseRoundKeys | s2e/qemu/aes.c:846-852 | the round keys stand in reverse order |
| AesKeys.TdKeyWordInverts | s2e/qemu/aes.c:857-876 | the composed tables apply InvMixColumn to a key word |
| AesKeys.AesKey.InvMixInnerKeys | s2e/qemu/aes.c:853-876 | InvMixColumns is applied to every round key but the first and the last |
| AesKeys.AesKey.SetDecryptKey | s2e/qemu/aes.c:832-878 | the schedule is the reversed one with the inner keys passed through InvMixColumns |
| AesKeys.DecryptUndoesEncrypt | s2e/qemu/aes.c:832-1261 | for every key of 128, 192 or 256 bits and every block, decrypting with the decryption schedule undoes encrypting |
| AesCbc.CbcRoundTrip | s2e/qemu/aes.c:1265-1314 | decrypting the encryption returns the plaintext for every length and chaining vector |
| AesCbc.EncryptedBlock | s2e/qemu/aes.c:1274-1294 | each cipher block is the cipher of the message bytes, filled up with zeroes, exclusive-ored with the previous cipher block or the vector |
| AesCbc.DecryptedByte | s2e/qemu/aes.c:1295-1313 | each byte is that of the decrypted block exclusive-ored with the previous cipher block or the vector |
| AesCbc.CbcEncSplit | s2e/qemu/aes.c:1274-1285 | splitting an encryption at a block boundary and carrying the chaining vector gives the same bytes and vector |
| AesCbc.CbcDecSplit | s2e/qemu/aes.c:1296-1305 | the same for decryption |
| AesCbc.ChainingVectorsAgree | s2e/qemu/aes.c:1286-1313 | both sides end with the same chaining vector for every cipher and its inverse if and only if the message is whole blocks |
| AesCbc.PartialBlockDisagrees | s2e/qemu/aes.c:1306-1313 | with a cipher that leaves no block alone they differ after every partial last block |
| AesCbc.CbcEncrypt | s2e/qemu/aes.c:1274-1294 | in place or between arrays, the output is the chained encryption rounded up to a block, the rest of the output is untouched, and the vector is the last cipher block |
| AesCbc.CbcDecrypt | s2e/qemu/aes.c:1295-1314 | in place or between arrays, the output is the chained decryption of the wanted length and nothing beyond it changes |
| AesCbc.AesCbcRoundTrip | s2e/qemu/aes.c:731-1314 | for every key, vector and message, decryption under the decryption schedule returns the message |
| BottomHalves.StepInv | s2e/qemu/async.c:44-121 | every step of callbacks and nested polls keeps the invariant |
| BottomHalves.NothingReachableIsFreed | s2e/qemu/async.c:55-92 | at any nesting depth, whatever can be reached from an active walk's saved pointer is still allocated |
| BottomHalves.EveryStepDefined | s2e/qemu/async.c:55-92 | so every possible step is defined |
| BottomHalfRuns.PollRunsWhatIsDue | s2e/qemu/async.c:55-75 | what is ready when a poll begins, and is neither cancelled nor deleted while it is active, has run when it ends |
| BottomHalfRuns.DeletedNeverRuns | s2e/qemu/async.c:117-121 | after a deletion no run is logged until the address is given to a new bottom half |
| BottomHalfRuns.DeletedIsFreed | s2e/qemu/async.c:78-89 | and when the outermost poll has finished it is off the heap |
| BottomHalfRuns.CancelledWaits | s2e/qemu/async.c:112-115 | after a cancellation no run is logged before the next scheduling |
| BottomHalfRuns.RunsAskedFor | s2e/qemu/async.c:94-110 | over every run a bottom half runs at most as often as scheduling steps ask for it |
| BottomHalfRuns.RunsAsScheduled | s2e/qemu/async.c:94-110 | scheduled and left alone, it still waits or has first run as the kind, idle or not, it was scheduled as |
| BottomHalves.OneRunPerSchedule | s2e/qemu/async.c:65-73 | nothing runs more often than it was scheduled |
| BottomHalves.OnlyReadyRuns | s2e/qemu/async.c:65-73 | a callback starts only for a scheduled, undeleted bottom half and uses the schedule up |
| BottomHalves.PollResult | s2e/qemu/async.c:55-91 | at any nesting depth a poll returns true if and only if this walk itself ran a bottom half that was not idle |
| BottomHalves.SweepLinked | s2e/qemu/async.c:78-89 | after the sweep the list links exactly the kept nodes in their order |
| BottomHalves.Context.BhNew | s2e/qemu/async.c:44-53 | the new node heads the list, the others keep their order |
| BottomHalves.Context.BhSchedule | s2e/qemu/async.c:94-110 | scheduling a scheduled one changes nothing, otherwise only its flags change |
| BottomHalves.Context.BhCancel | s2e/qemu/async.c:112-115 | only the schedule of the node is withdrawn |
| BottomHalves.Context.BhDelete | s2e/qemu/async.c:117-121 | the node is unscheduled and marked, and stays linked |
| BottomHalves.Context.UpdateTimeout | s2e/qemu/async.c:123-141 | zero if one is ready at once, at most ten if only idle ones are, unchanged if none is |
| BottomHalves.Context.SweepDeleted | s2e/qemu/async.c:78-89 | the pointer-to-link loop frees exactly the deleted nodes and relinks the others in order |
| BufferedFile.DrainConserves | s2e/qemu/buffered_file.c:73-110 | a flush, whatever the backend answers, neither loses nor reorders a byte |
| BufferedFile.DrainSettles | s2e/qemu/buffered_file.c:73-110 | with a backend that does not fail, a flush empties the buffer or freezes the file |
| BufferedFile.PutExact | s2e/qemu/buffered_file.c:112-171 | for every content of buffer and data of given lengths the stream grows by a prefix of the data, if and only if the answers let the flush empty the buffer or freeze the file, the allowance is used up, or the next answer is not positive |
| BufferedFile.FailedPutError | s2e/qemu/buffered_file.c:144-149 | a failed write leaves the failing answer as the error, so none if and only if that answer was zero |
| BufferedFile.WriteOutExact | s2e/qemu/savevm.c:524-539 | through `qemu_fflush` nothing is lost or reordered without an error, for every content of these lengths, if and only if the order is kept, or the flush was ended by a negative answer, or the answers to the write include a failing one, all told from lengths, answers and allowance |
| BufferedFile.FailedFlushReorders | s2e/qemu/buffered_file.c:97-100 | after a failed flush the new byte is delivered before the buffered one |
| BufferedFile.ZeroAnswerReorders | s2e/qemu/buffered_file.c:97-100 | a zero answer to the buffered byte: the new byte is delivered first, and no error is set |
| BufferedFile.PutConserves | s2e/qemu/buffered_file.c:112-171 | with a backend that does not fail, a write adds exactly its data and reports its size |
| BufferedFile.Conservation | s2e/qemu/buffered_file.c:112-263 | over every sequence of writes, notifications, ticks and rate changes, delivered and buffered bytes together are the bytes written, in order |
| BufferedFile.TickRenews | s2e/qemu/buffered_file.c:243-263 | the timer gives a file that is not frozen a new allowance and leaves its buffer empty or the file frozen |
| BufferedFile.DirectCounts | s2e/qemu/buffered_file.c:131-154 | what is sent directly counts against the allowance, and sending stops only for want of data, a failure, a freeze or an allowance used up |
| BufferedFile.ClosingDelivers | s2e/qemu/buffered_file.c:173-184 | closing loses nothing, and when its loop ends everything is delivered |
| BufferedFile.BufferedWriter.Append | s2e/qemu/buffered_file.c:49-71 | the data follows the buffered bytes; the allocation grows by the data and 1024 bytes if and only if it does not fit |
| BufferedFile.BufferedWriter.FlushBuffer | s2e/qemu/buffered_file.c:73-110 | the offset loop and the move to the front are the specified flush |
| BufferedFile.BufferedWriter.PutBuffer | s2e/qemu/buffered_file.c:112-171 | state and result are those of the specified write |
| BufferedFile.BufferedWriter.WriteCollected | s2e/qemu/savevm.c:524-539 | the state is that of the specified write through `qemu_fflush` |
| BufferedFile.BufferedWriter.RateTick | s2e/qemu/buffered_file.c:243-263 | a frozen file is left alone, otherwise a new allowance and a flush |
| BufferedFile.BufferedWriter.CloseLoop | s2e/qemu/buffered_file.c:180-184 | the loop is the specified closing |
| Words.LowMaskValue | s2e/qemu/bitmap.h:58-68 | the row of bits used as mask is the number one less than a power of two |
| Words.Ffsl | s2e/qemu/bitops.h:31-61 | the least set position of a nonzero word |
| Words.Flsl | s2e/qemu/bitops.h:69-99 | the greatest set position of a nonzero word |
| Words.Ffz | s2e/qemu/bitops.h:107-110 | the least clear position of a word that is not full |
| Bitmaps.FindNextBit | s2e/qemu/bitops.c:21-64 | the least set bit at or after the offset, or the size if there is none |
| Bitmaps.FindNextZeroBit | s2e/qemu/bitops.c:70-113 | the least clear bit at or after the offset, or the size if there is none |
| Bitmaps.FindLastBit | s2e/qemu/bitops.c:115-142 | the greatest set bit below the size, or the size if there is none |
| Bitmaps.FindNextZeroArea | s2e/qemu/bitmap.c:214-237 | the least aligned position whose bits are all clear and fit, or a value beyond the size if and only if there is none |
| Bitmaps.AlignMask | s2e/qemu/bitmap.c:224-225 | for a power of two, adding the mask and clearing its bits rounds up to the alignment |
| Bitmaps.UpdateRange | s2e/qemu/bitmap.c:160-198 | exactly the bits of the range are set or cleared, for every start and length |
| Bitmaps.SlowEmpty | s2e/qemu/bitmap.c:39-55 | true if and only if none of the first bits is set |
| Bitmaps.Empty | s2e/qemu/bitmap.h:186-193 | the one-word form and the loop both decide that; for zero bits the answer is whether the first word is zero |
| Bitmaps.NoBits | s2e/qemu/bitmap.h:176-212 | for zero bits each one-word form answers as the loop does if and only if the whole word is zero, full, equal or without common bits |
| Bitmaps.Full | s2e/qemu/bitmap.h:195-202 | true if and only if all of the first bits are set; for zero bits, the whole first word |
| Bitmaps.Equal | s2e/qemu/bitmap.h:176-184 | true if and only if the maps agree on the first bits; for zero bits, on the whole first word |
| Bitmaps.Intersects | s2e/qemu/bitmap.h:204-212 | true if and only if some one of the first bits is set in both; for zero bits, of the whole first word |

## Left out

- I/O throttling, block drivers, image opening and closing, snapshots, discard and compressed writes are not modelled; the latter two are not tracked requests.
- Negative or overflowing sector numbers and the width of the cluster-size arithmetic: sectors and lengths are unbounded naturals.
- Bandwidth, downtime and progress estimates: leaving stage 2 is a free choice of the step systems, except that disk migration requires the bulk phase to be complete.
- Stage 2 of disk migration has no method of its own; its loop over bulk and dirty saves is covered by the step system and by the methods it calls.
- Read errors, `shared_base` and the sharing of the stream with other devices in disk migration; I/O errors of the RAM stream while saving.
- KVM dirty-log synchronisation, `s2e_write_ram_concrete`, `madvise` and the sorting of the RAM block list: memory is a sequence of pages, and the blocks have unique names and whole, positive numbers of pages.
- RamSaving.RamSaver.FindDirty: requires that a page was sent before or some page is dirty, because otherwise the code does not return, as SearchStops shows.
- RamSaving.RamSaver.RamSaveBlock: requires that a page was sent before or some page is dirty, because otherwise the code does not return, as SearchStops shows.
- The version number the RAM loader is called with, and what a loader has already written when the stream ends early or is refused.
- Multiwrite.MultiwriteMerge: the sort before it is a precondition, and the driver's merge hook and the completion callbacks are not modelled.
- AES key and block pointers that are null, the literal table contents, and the unrolled variants that are not compiled.
- DirtyBitmap.DirtyTracker.SetTracking: the bitmap is rounded up to whole words, so the tracker's own theorems also speak for sizes at which AllocationExact says that the code's last word is not allocated.
- BottomHalves: the poll loop is a step system and not a method, because its callbacks re-enter it; callbacks are steps of that system.
- BufferedFile: the client callback, the timer, the freeing of the file and the clamping of the rate are not modelled; when the answers of the backend run out it asks to be tried again.
- BufferedFile.BufferedWriter.RateTick: on a file in error the code closes and frees it; the model leaves it as it is.
- BufferedFile.BufferedWriter.CloseLoop: stops when the backend has no answer left, where the code would wait.
- Bitmaps.FindNextZeroArea: wrap-around of positions is not modelled.
- RamSaving.IsDupPage: compares eight bytes at a time; the wider vector types of some hosts are not modelled.
- The bitmap operations that write a destination (and, or, exclusive or, complement, copy, fill), the single-bit operations and the population count are not modelled.
- `aio.c`, `acl.c`, the disassemblers, consoles, coroutine back ends and everything outside `s2e/qemu` are not modelled.
