# Verified models of five kernel components

Dafny models of five parts of the repository, each with the code as it runs (a class
or methods over the fields, lists and arrays the C code changes in place) and functions on values
that say what the code computes, about which the properties are proved.

| component | files | what it is |
|---|---|---|
| bigphysarea | `BigPhys*.dfy` | first-fit allocator for physically contiguous pages, with alignment and a coalescing free list |
| ashmem | `Ashmem*.dfy` | pin, unpin and purge of page ranges; every area has a list of unpinned ranges, all areas share one LRU list and one page counter |
| SPI flash | `Spi*.dfy` | the MTD layer and the generic chip driver, over a model of the chip |
| FTGMAC100 | `Ftgmac*.dfy` | the transmit and receive descriptor rings of the Ethernet driver |
| headers and CRC | `Crc*.dfy`, `Fmh*.dfy` | CRC-32 in three forms, flash module headers and the partition scan |

`Arith.dfy` holds the arithmetic they share. `dafny verify dfyconfig.toml` checks everything.

**bigphysarea.** `BigPhysAlloc` has the state and the operations as functions, `BigPhysSets` the
theory of sorted lists without abutting blocks, `BigPhysTheory` what callers are promised, and
`BigPhysArea.Area` the two lists as each call cuts and joins them. A null address is 0.

**ashmem.** `AshmemModel` has the operations on values, `AshmemOps`, `AshmemUnpin` and
`AshmemShrink` what each of them does to the set of unpinned pages, to purge marks and to the LRU
list, `AshmemTheory` requests and runs. `AshmemOrder` says where each operation leaves ranges on the
LRU list, `AshmemAge` in which order pages are purged over whole runs. `AshmemLoose` and
`AshmemRuns` go on where an unpin request without pages has left a range without pages: over all
runs, and over every order of the LRU list, since such ranges can be equal and the model does not
tell them apart. `Ashmem.Driver` works on nodes that are shared between an area's list and the LRU
list; `AshmemShape` ties such a memory to the model.

**SPI flash.** `SpiChip` is the chip: dies with a memory and registers for address mode, write
enable latch and write in progress. A page program wraps inside its 256-byte page and only clears
bits; a busy die takes status reads only; a malformed or untimely array command is refused and
counted. `SpiProtocol` has the states the chip passes through, `SpiFlat` the flat array of bytes
that dies, pages and sectors add up to, `SpiErase` the erase map. `SpiLine` is the driver as
functions of the fate of each transfer: whether it succeeds, whether the chip saw one that did not,
how long a program takes. A line carries the chip and counts the array transfers that failed in
3-byte and in 4-byte mode. The line also counts the programs and erases that take longer than the
driver waits. `SpiOutcomes` has what holds for all fates, `SpiFaults`, `SpiReads` and `SpiWrites`
what requests do and report when array transfers or the select of die 1 fail, `SpiUnreported` which
failures are not reported, `SpiSlow` what slow programs and erases leave behind, `SpiAstray` which
requests go to the wrong die, `SpiInputs` an input for each. `SpiOpcodes` compares the commands with
what their opcodes stand for. `SpiFlash.Driver` is the driver as it runs, equal to `SpiLine` for all
fates. `ControlOk` says that commands without an address succeed, `ButSelectOk` that all of these
but the select of die 1 do; both are about the chip and its bus, not about the request. `slow`
staying the same says that no program or erase of the call took too long. `refused` staying the same
is address agreement: every array command reached an idle die with as many address bytes as its mode
takes.

**FTGMAC100.** `FtgmacTx` is the transmit ring as a state machine of offers, completions by the
controller in any order, and reclaims; `FtgmacTxRing` is the ring in place. `FtgmacRx` says what the
driver makes of the list of filled segments, `FtgmacRxRing` does it on the descriptor array.

**Headers and CRC.** `Crc` has the table, `CrcForms` the three forms as they run, compared through
one bit-serial reference function. `Fmh` has headers byte by byte and the builders, `FmhScan` the
search for a header and the scan that fills the partition table, `FmhTable` what the table holds in
terms of the bytes on the flash.

## What the code does not do

Places where the code falls short of what it is for, each with the exact condition in a lemma:

- An allocation of no pages puts an empty block on the used list (`BigPhysTheory.AllocKeepsInv`,
  `BigPhysTheory.NothingGranted`).
- An unpin request with length 0 at the very end of an area is granted and leaves a range without
  pages behind (`AshmemTheory.StepKeepsGood`, `AshmemTheory.EmptyInterval`). No purge is lost for it
  (`AshmemRuns.NoLostPurge`), but pages at the end of the area can be reported as unpinned or purged
  that are not (`AshmemLoose.StatusLoose`, `AshmemLoose.PinLoose`, `AshmemRuns.EmptyRangeReported`).
- A chunked write that does not start a page and does not stay in one wraps in its first page
  (`SpiFlat.ChunkedExactIff`); `write_one_chip` never makes one.
- A read, page program or erase that fails in 4-byte mode is returned as a success, since the result
  of leaving the mode replaces the error: always with quad transfers, for all addresses of a
  4-byte chip, and from 16 megabytes on otherwise (`SpiReads.ReadReported`, `SpiWrites.WriteReported`,
  `SpiWrites.EraseReported`, `SpiFlash.Driver.FlashWrite`, `SpiUnreported.WriteErrorIff`,
  `SpiInputs.OneByteUnreported`).
- The result of the write enable is not looked at, so a page can be refused by the chip and returned
  as written (`SpiWrites.EnableLost`, `SpiUnreported.EnableLostPage`, `SpiInputs.ByteNotEnabled`).
- The result of the select of die 1 is not looked at, so a write, an erase or a read for the second
  die can go to the first and be returned as a success (`SpiAstray.SelectLost`,
  `SpiAstray.DieSelectIgnored`, `SpiInputs.WrongDie0`).
- A write or erase that takes too long can return 0 and leave the die in 4-byte mode
  (`SpiSlow.ModeStaysOn`, `SpiSlow.EraseModeStaysOn`, `SpiSlow.EveryProgramSlow`) or die 1 selected
  (`SpiSlow.WriteSelects`, `SpiSlow.EraseSelects`); everything is in its place exactly if none took
  too long (`SpiSlow.WriteRestIff`, `SpiSlow.EraseRestIff`). With die 1 left selected, the next write
  for die 0 goes to die 1 and is returned as a success (`SpiAstray.WriteAstray`,
  `SpiInputs.WrongDie1`).
- The erase loop never ends when the length is not a multiple of the first region's erase size
  (`SpiErase.LoopEndsIff`). That takes a map with two erase sizes, such as the one of
  `SpiErase.MixedMapDiverges`; none of the chip tables has one (`SpiErase.ListedEraseExact`).
- At stop, transmit buffers are freed in slot order, which is submission order only if the window
  does not go round the end of the ring (`FtgmacTx.StopInOrderIff`, `FtgmacTx.StopReorders`).
- A poll with budget 0 can deliver a frame (`FtgmacRx.BudgetKeptIff`, `FtgmacRx.BudgetOfNothing`).
- The partition scan never ends when a visited header has less than a sector allocated and its
  module is not before the sector (`FmhScan.EndsIff`, `FmhScan.EmptyHeaderHolds`).

## Model

| member | source | states |
|---|---|---|
| BigPhysTheory.AllocComplete | Core/Modified_OpenSource/Kernel_amiext_ex-src/55-mm_bigphysarea.c:228-243 | with node memory, an allocation returns 0 exactly when no run of `count` free pages starts at a multiple of `align` pages, of one page for 0, anywhere in the area; otherwise it returns the lowest address at which one starts |
| BigPhysTheory.AllocEffect | Core/Modified_OpenSource/Kernel_amiext_ex-src/55-mm_bigphysarea.c:244-294 | a successful allocation takes exactly the requested run out of the free bytes and puts it in front of the used list; a failed one on an initialised area leaves the state as it was |
| BigPhysTheory.AllocMemory | Core/Modified_OpenSource/Kernel_amiext_ex-src/55-mm_bigphysarea.c:244-263 | without enough node memory such an allocation fails exactly if a node is needed: one for the free byte in front of the run, one for the free byte behind it |
| BigPhysTheory.FirstRequest | Core/Modified_OpenSource/Kernel_amiext_ex-src/55-mm_bigphysarea.c:190-227 | the first request makes the whole area one free block, if there is an area and a node can be had, and goes on from there; otherwise it fails and changes nothing; the same for the query of the largest block |
| BigPhysTheory.FailureChangesNothing | Core/Modified_OpenSource/Kernel_amiext_ex-src/55-mm_bigphysarea.c:217-263 | whichever node allocation fails, nothing changes but a first-time creation of the free list |
| BigPhysTheory.AllocKeepsInv | Core/Modified_OpenSource/Kernel_amiext_ex-src/55-mm_bigphysarea.c:212-295 | free and used blocks stay positive, page-sized, disjoint and an exact tiling of the area, the free list sorted and without abutting blocks, if and only if `count` is positive or the state grants nothing to a request for no pages: the area is not set up and cannot be, no free block holds an aligned address, or a node it needs cannot be had |
| BigPhysTheory.NothingGranted | Core/Modified_OpenSource/Kernel_amiext_ex-src/55-mm_bigphysarea.c:212-295 | on an area of one page, set up and free, a request for no pages is granted and breaks the invariant |
| BigPhysTheory.FreeKeepsInv | Core/Modified_OpenSource/Kernel_amiext_ex-src/55-mm_bigphysarea.c:302-353 | freeing any address, known or not, keeps that invariant |
| BigPhysTheory.FreeUnknown | Core/Modified_OpenSource/Kernel_amiext_ex-src/55-mm_bigphysarea.c:302-322 | freeing an address at which no used block starts changes nothing |
| BigPhysTheory.FreeReleases | Core/Modified_OpenSource/Kernel_amiext_ex-src/55-mm_bigphysarea.c:302-353 | freeing a used block takes that block alone off the used list, the others staying in order; an address is free afterwards exactly if it was or lies in the block |
| BigPhysSets.CanonicalUnique | Core/Modified_OpenSource/Kernel_amiext_ex-src/55-mm_bigphysarea.c:324-352 | a sorted free list without abutting blocks is determined by the set of bytes it holds |
| BigPhysSets.CarveCanonical | Core/Modified_OpenSource/Kernel_amiext_ex-src/55-mm_bigphysarea.c:257-287 | cutting a run out of a free block leaves the list sorted, positive and without abutting blocks |
| BigPhysSets.ReleaseSet | Core/Modified_OpenSource/Kernel_amiext_ex-src/55-mm_bigphysarea.c:328-352 | insertion with both merges yields a coalesced list whose bytes are the old ones and those of the freed block |
| BigPhysTheory.FreeUndoesAlloc | Core/Modified_OpenSource/Kernel_amiext_ex-src/55-mm_bigphysarea.c:302-353 | freeing a block right after allocating it restores both lists exactly |
| BigPhysTheory.NothingUsedOneBlock | Core/Modified_OpenSource/Kernel_amiext_ex-src/55-mm_bigphysarea.c:302-353 | with nothing in use the free list is the one block that covers the area |
| BigPhysTheory.FreeAllAnyOrder | Core/Modified_OpenSource/Kernel_amiext_ex-src/55-mm_bigphysarea.c:302-353 | freeing all used blocks, in any order and with any other addresses between, ends with nothing in use and one free block |
| BigPhysTheory.AllocIffMaxSize | Core/Modified_OpenSource/Kernel_amiext_ex-src/55-mm_bigphysarea.c:355-380 | with node memory, an allocation in bytes succeeds exactly if its size rounded up to pages is at most the reported maximum |
| BigPhysTheory.BytesGranted | Core/Modified_OpenSource/Kernel_amiext_ex-src/55-mm_bigphysarea.c:355-360 | a request in bytes that succeeds gets, on a page boundary, the fewest whole pages that hold it, all of them free before, at the head of the used list |
| BigPhysTheory.EveryRunTiles | Core/Modified_OpenSource/Kernel_amiext_ex-src/55-mm_bigphysarea.c:190-353 | over every sequence of allocations and frees the invariant holds and the area stays the same |
| BigPhysTheory.EveryRunConservesBytes | Core/Modified_OpenSource/Kernel_amiext_ex-src/55-mm_bigphysarea.c:190-353 | over every such sequence, even with empty allocations, free bytes and used bytes together are the size of the area |
| BigPhysTheory.EveryRunKeepsBlock | Core/Modified_OpenSource/Kernel_amiext_ex-src/55-mm_bigphysarea.c:190-353 | over every run that does not free it, a block handed out stays in use, none of it is free, and no other block in use overlaps it |
| BigPhysAlloc.AlignUpLeast | Core/Modified_OpenSource/Kernel_amiext_ex-src/55-mm_bigphysarea.c:235-236 | the aligned base is the least multiple of the alignment that is not below the block |
| BigPhysArea.Area.constructor | Core/Modified_OpenSource/Kernel_amiext_ex-src/55-mm_bigphysarea.c:135-151 | without pages or without an address the area is never set up; otherwise it waits for its free list |
| BigPhysArea.Area.Init2 | Core/Modified_OpenSource/Kernel_amiext_ex-src/55-mm_bigphysarea.c:190-203 | the first call with node memory makes the whole area one free block |
| BigPhysArea.Area.AllocPages | Core/Modified_OpenSource/Kernel_amiext_ex-src/55-mm_bigphysarea.c:212-295 | in 32-bit arithmetic without wrap-around the call returns and leaves what the allocation function says, and keeps the invariant for a positive count |
| BigPhysArea.Area.SearchFit | Core/Modified_OpenSource/Kernel_amiext_ex-src/55-mm_bigphysarea.c:232-243 | the walk stops at the first block that fits after alignment, or at the end of the list |
| BigPhysArea.Area.TakeOut | Core/Modified_OpenSource/Kernel_amiext_ex-src/55-mm_bigphysarea.c:252-292 | cutting off the part in front of the aligned address and the part behind the run, step by step, yields the carved list and the block handed out |
| BigPhysArea.Area.FreePages | Core/Modified_OpenSource/Kernel_amiext_ex-src/55-mm_bigphysarea.c:302-353 | searching, unlinking, inserting and merging in place: an unknown address changes nothing; otherwise exactly the block that starts there leaves the used list and its addresses become free; the invariant holds |
| BigPhysArea.Area.PutBack | Core/Modified_OpenSource/Kernel_amiext_ex-src/55-mm_bigphysarea.c:328-352 | insertion by address, then the upper and the lower merge, is the release function |
| BigPhysArea.Area.AllocBytes | Core/Modified_OpenSource/Kernel_amiext_ex-src/55-mm_bigphysarea.c:355-360 | allocates with page alignment; on success exactly one block joins the used list, of the fewest whole pages that hold the request |
| BigPhysArea.Area.GetMaxSize | Core/Modified_OpenSource/Kernel_amiext_ex-src/55-mm_bigphysarea.c:368-380 | sets up the free list if needed and returns the size of a free block no other is larger than, 0 if there is none |
| AshmemOps.PinEffect | Core/Modified_OpenSource/Kernel_amiext_ex-src/54-mm_ashmem.c:381-440 | pinning takes exactly the requested pages out of the area's unpinned set and out of its purged set, leaves every other area alone, keeps lists, LRU list and counter consistent, and reports a purge exactly when a requested page was in a purged range |
| AshmemOps.PinRangeKeepsInv | Core/Modified_OpenSource/Kernel_amiext_ex-src/54-mm_ashmem.c:406-436 | each of the four overlap cases keeps the invariant, the hole that splits a range included |
| AshmemUnpin.UnpinEffect | Core/Modified_OpenSource/Kernel_amiext_ex-src/54-mm_ashmem.c:447-474 | unpinning adds exactly the requested pages to the unpinned set; purge marks are never lost, and the merged range is marked exactly when a requested page was in a marked range |
| AshmemUnpin.UnpinFromEffect | Core/Modified_OpenSource/Kernel_amiext_ex-src/54-mm_ashmem.c:452-473 | the same for the loop with its restarts, from any position and with any mark collected so far |
| AshmemOrder.UnpinOrder | Core/Modified_OpenSource/Kernel_amiext_ex-src/54-mm_ashmem.c:447-474 | an unpin request inside one range changes nothing; any other takes the overlapping ranges of the area off the LRU list, the rest staying in order, and puts the range that holds their pages and its own at the end, unless one of its pages was in a marked range |
| AshmemOrder.PinOrder | Core/Modified_OpenSource/Kernel_amiext_ex-src/54-mm_ashmem.c:381-440 | on a pin every range of the LRU list keeps its place with the part below the interval, or else with the part above it, or leaves; the upper part of a range that the interval splits goes to the end |
| AshmemOrder.ReleaseOrder | Core/Modified_OpenSource/Kernel_amiext_ex-src/54-mm_ashmem.c:195-210 | on a release the ranges of the other areas stay on the LRU list, in order |
| AshmemOps.StatusEffect | Core/Modified_OpenSource/Kernel_amiext_ex-src/54-mm_ashmem.c:482-498 | the status is unpinned exactly when the interval meets the unpinned set, although the walk stops early |
| AshmemShrink.ShrinkEffect | Core/Modified_OpenSource/Kernel_amiext_ex-src/54-mm_ashmem.c:271-298 | shrinking purges the shortest prefix of the LRU list totalling at least the asked pages, or all of it; pages purged and the count returned add up to the old count |
| AshmemShrink.ShrinkMarks | Core/Modified_OpenSource/Kernel_amiext_ex-src/54-mm_ashmem.c:282-294 | shrinking changes no unpinned set of any area and marks exactly the pages of the purged ranges |
| AshmemShrink.ShrinkRefuses | Core/Modified_OpenSource/Kernel_amiext_ex-src/54-mm_ashmem.c:275-279 | a query returns the pages of the LRU list, and a caller that must not enter the filesystem gets -1; both change nothing |
| AshmemShrink.CountIsPages | Core/Modified_OpenSource/Kernel_amiext_ex-src/54-mm_ashmem.c:104-114 | the counter is the number of pages, over all areas, that are unpinned and not in a marked range |
| AshmemShrink.ShrinkLoopKeepsInv | Core/Modified_OpenSource/Kernel_amiext_ex-src/54-mm_ashmem.c:282-294 | the purge loop keeps lists, LRU list and counter consistent |
| AshmemShrink.PurgeAllEmpties | Core/Modified_OpenSource/Kernel_amiext_ex-src/54-mm_ashmem.c:581-587 | the pair of calls behind the purge-all request leaves an empty LRU list and a count of 0, having purged everything that was on it |
| AshmemTheory.ReleaseEffect | Core/Modified_OpenSource/Kernel_amiext_ex-src/54-mm_ashmem.c:195-210 | releasing an area removes its ranges from the LRU list and the counter and leaves every other area alone |
| AshmemTheory.DecodeExact | Core/Modified_OpenSource/Kernel_amiext_ex-src/54-mm_ashmem.c:513-527 | a request is granted exactly when it is page-aligned and inside the area in 32-bit arithmetic, and then names pages of the area, at least one unless it asks for everything from the very end on |
| AshmemTheory.AnsweredExact | Core/Modified_OpenSource/Kernel_amiext_ex-src/54-mm_ashmem.c:500-546 | a request is refused exactly if the area is not mapped, an end is not page-aligned or it is not inside the area; any other is carried out on exactly its pages: a pin answers purged exactly if one of them was in a marked range and takes them out, an unpin adds them, a status request answers unpinned exactly if one of them was in a range |
| AshmemTheory.EmptyInterval | Core/Modified_OpenSource/Kernel_amiext_ex-src/54-mm_ashmem.c:513-536 | the granted request without pages: pin and status change nothing, unpin breaks the range list |
| AshmemTheory.StepKeepsGood | Core/Modified_OpenSource/Kernel_amiext_ex-src/54-mm_ashmem.c:175-591 | every operation keeps the global invariant, and that every page truncated since its last pin is in a marked range, except exactly the unpin request without pages |
| AshmemTheory.StepKeepsSound | Core/Modified_OpenSource/Kernel_amiext_ex-src/54-mm_ashmem.c:195-590 | in a state with well-formed lists, bounded ranges and page-sized areas every request but the empty unpin leaves such a state |
| AshmemTheory.EveryRunGood | Core/Modified_OpenSource/Kernel_amiext_ex-src/54-mm_ashmem.c:175-591 | the same over every run without that request, on any number of areas: lists descending and disjoint, LRU list exactly the evictable ranges, counter exactly their pages, no purge forgotten |
| AshmemLoose.PinLoose | Core/Modified_OpenSource/Kernel_amiext_ex-src/54-mm_ashmem.c:381-440 | on a list that begins with ranges without pages, pinning takes exactly the requested pages out of the unpinned and the purged set; it reports a purge exactly if a requested page was in a marked range, or if the interval goes up to the end of the area and a range without pages is marked |
| AshmemLoose.StatusLoose | Core/Modified_OpenSource/Kernel_amiext_ex-src/54-mm_ashmem.c:482-498 | on such a list an interval is reported as unpinned exactly if one of its pages is, or if it goes up to the end of the area and there is a range without pages |
| AshmemRuns.UnpinLoose | Core/Modified_OpenSource/Kernel_amiext_ex-src/54-mm_ashmem.c:447-474 | on such a list, over all restarts, unpinning adds exactly the requested pages and loses no purge mark; ranges without pages stay in front or are merged away |
| AshmemRuns.StepFair | Core/Modified_OpenSource/Kernel_amiext_ex-src/54-mm_ashmem.c:175-591 | every operation, the empty unpin too, keeps this: the LRU list holds each unpurged range as often as the lists do, the counter is their pages, lists descend but for ranges without pages at their heads, and every page truncated since its last pin is in a marked range |
| AshmemRuns.EveryRunFair | Core/Modified_OpenSource/Kernel_amiext_ex-src/54-mm_ashmem.c:175-591 | so over every run, with no request left out, on any number of areas and whatever the order of the LRU list |
| AshmemRuns.NoLostPurge | Core/Modified_OpenSource/Kernel_amiext_ex-src/54-mm_ashmem.c:271-474 | from module load, over every run, pinning an interval with a page truncated since its last pin reports the purge |
| AshmemRuns.NoLostPurgeRequest | Core/Modified_OpenSource/Kernel_amiext_ex-src/54-mm_ashmem.c:500-546 | from module load, over every run, a granted pin request that covers a page truncated since its last pin is answered with the purge code |
| AshmemRuns.EmptyRangeReported | Core/Modified_OpenSource/Kernel_amiext_ex-src/54-mm_ashmem.c:447-498 | an area of one page that has been pinned all the time: after the empty unpin its page is reported as unpinned, and after the shrinker has come by, as purged |
| AshmemAge.EveryRunInOrder | Core/Modified_OpenSource/Kernel_amiext_ex-src/54-mm_ashmem.c:175-591 | over every run the LRU list stays in the order in which its pages came on it, told from the requests alone: an unpin not inside one range makes all pages it joins young, a pin that splits a range the pages above it; only ranges without pages, which the model does not tell apart, may stand in any order |
| AshmemAge.OldestTakenFirst | Core/Modified_OpenSource/Kernel_amiext_ex-src/54-mm_ashmem.c:271-298 | over every run from module load: when the shrinker takes pages, each of them came on the LRU list before every page that it leaves there |
| AshmemLists.AllocKeepsInv | Core/Modified_OpenSource/Kernel_amiext_ex-src/54-mm_ashmem.c:127-148 | a new range between its neighbours keeps list, LRU list and counter consistent |
| AshmemLists.DelKeepsInv | Core/Modified_OpenSource/Kernel_amiext_ex-src/54-mm_ashmem.c:150-156 | so does deleting a range |
| AshmemLists.ShrinkKeepsInv | Core/Modified_OpenSource/Kernel_amiext_ex-src/54-mm_ashmem.c:163-173 | so does cutting a range down in place, on both lists at once |
| AshmemShape.NewIsTied | Core/Modified_OpenSource/Kernel_amiext_ex-src/54-mm_ashmem.c:127-148 | a node inserted in its area's list and appended to the LRU list is what the model's insertion says |
| AshmemShape.DeletedIsTied | Core/Modified_OpenSource/Kernel_amiext_ex-src/54-mm_ashmem.c:150-156 | unlinking a node from both lists is what the model's deletion says |
| AshmemShape.ChangedIsTied | Core/Modified_OpenSource/Kernel_amiext_ex-src/54-mm_ashmem.c:163-173 | writing new bounds into one node changes the entry of both lists that share it |
| AshmemShape.PurgedIsTied | Core/Modified_OpenSource/Kernel_amiext_ex-src/54-mm_ashmem.c:288-289 | marking the node at the head of the LRU list changes its area's list and takes it off the LRU list |
| Ashmem.Driver.Pin | Core/Modified_OpenSource/Kernel_amiext_ex-src/54-mm_ashmem.c:381-440 | the loop over the shared nodes ends in the state, and with the result, of the pin function |
| Ashmem.Driver.PinHole | Core/Modified_OpenSource/Kernel_amiext_ex-src/54-mm_ashmem.c:427-434 | the fourth case: new node for the upper part, old node cut down |
| Ashmem.Driver.Unpin | Core/Modified_OpenSource/Kernel_amiext_ex-src/54-mm_ashmem.c:447-474 | the loop with restart terminates and ends in the state of the unpin function, which is valid for every request that names a page |
| Ashmem.Driver.Status | Core/Modified_OpenSource/Kernel_amiext_ex-src/54-mm_ashmem.c:482-498 | the loop returns what the status function says and changes nothing |
| Ashmem.Driver.Shrink | Core/Modified_OpenSource/Kernel_amiext_ex-src/54-mm_ashmem.c:271-298 | a query returns the pages of the LRU list and a call that must not enter the filesystem -1, both changing nothing; otherwise the loop over the LRU list purges and returns what the shrink function says |
| Ashmem.Driver.PurgeAllCaches | Core/Modified_OpenSource/Kernel_amiext_ex-src/54-mm_ashmem.c:581-587 | returns the old count and ends in the state of the purge-all function |
| Ashmem.Driver.Release | Core/Modified_OpenSource/Kernel_amiext_ex-src/54-mm_ashmem.c:195-210 | deletes the area's nodes one by one and forgets the area |
| Ashmem.Driver.PinUnpin | Core/Modified_OpenSource/Kernel_amiext_ex-src/54-mm_ashmem.c:500-546 | refused exactly if the area is not mapped, an end is not page-aligned or the request is not inside the area; otherwise carried out and answered, page by page, as in `AshmemTheory.AnsweredExact`; a refused one changes nothing; everything the next call needs holds again unless the request is the empty unpin |
| Ashmem.Driver.SetSize | Core/Modified_OpenSource/Kernel_amiext_ex-src/54-mm_ashmem.c:560-566 | the size changes exactly for an area not mapped yet and a page multiple; as with every other call, what the next one needs holds again |
| SpiFlash.Driver.FlashWrite | Core/Modified_OpenSource/Kernel_amiext_ex-src/30-drivers_mtd_spichips_spiaccess.c:318-349 | whatever becomes of the transfers: state, `ret` and `retlen` are those of the page walk, and the lock is free; while commands without an address succeed and no program of this call takes too long, it returns 0 exactly if no page failed in 3-byte mode, and without failures every byte of the range becomes its old value AND the new one, no other byte changes, die 0 and 3-byte mode are selected again and no command was refused; a page returned as written leaves die 0, 3-byte mode and a chip that gets ready in time exactly if its program did not take too long; a request past the end is refused and changes nothing |
| SpiFlash.Driver.FlashRead | Core/Modified_OpenSource/Kernel_amiext_ex-src/30-drivers_mtd_spichips_spiaccess.c:288-316 | whatever becomes of the transfers: state, buffer, `ret` and `retlen` are those of the walk over pieces, and the lock is free; while commands without an address succeed, it returns 0 exactly if no transfer failed in 3-byte mode, changes no byte of the flash, and without failures the buffer gets exactly the flat contents of the range, over the 16 and 32 megabyte boundaries too; a request past the end is refused |
| SpiFlash.Driver.FlashErase | Core/Modified_OpenSource/Kernel_amiext_ex-src/30-drivers_mtd_spichips_spiaccess.c:352-436 | a request that fails a check changes nothing; an accepted one whose loop ends is the walk over its blocks, whatever becomes of the transfers; while commands without an address succeed and no erase of this call takes too long, it returns 0 exactly if no block failed in 3-byte mode, and without failures it erases block by block; when all regions have the erase size of the chip, it is refused exactly if an end is no multiple of it or the range is not inside the device, and otherwise erases exactly its range; a single block returned as erased leaves die 0, 3-byte mode and a chip that gets ready in time exactly if its erase did not take too long |
| SpiFlash.Driver.EraseBlocks | Core/Modified_OpenSource/Kernel_amiext_ex-src/30-drivers_mtd_spichips_spiaccess.c:417-430 | the erase loop in steps of the first region's size: after `n` turns the 32-bit variable holds `Left(length, step, n)`; state and result are those of the block walk |
| SpiFlash.Driver.WriteOneChip | Core/Modified_OpenSource/Kernel_amiext_ex-src/30-drivers_mtd_spichips_spiaccess.c:210-258 | one page or many, state and result are those of the page walk |
| SpiFlash.Driver.WritePages | Core/Modified_OpenSource/Kernel_amiext_ex-src/30-drivers_mtd_spichips_spiaccess.c:233-251 | the loop over pages after the first, partial one, is the page walk |
| SpiFlash.Driver.ReadOneChip | Core/Modified_OpenSource/Kernel_amiext_ex-src/30-drivers_mtd_spichips_spiaccess.c:175-208 | pieces of 4 kilobytes and a last one: state, result and buffer are those of the walk over pieces |
| SpiFlash.Driver.Read | Core/Modified_OpenSource/Kernel_amiext_ex-src/22-drivers_mtd_spichips_generic.c:596-894 | state, result and buffer for every outcome of every transfer, also over two dies; the lock is free on every return path |
| SpiFlash.Driver.ReadSpan | Core/Modified_OpenSource/Kernel_amiext_ex-src/22-drivers_mtd_spichips_generic.c:635-893 | the same for a request on one die |
| SpiFlash.Driver.ReadLoop | Core/Modified_OpenSource/Kernel_amiext_ex-src/22-drivers_mtd_spichips_generic.c:682-873 | transfers of the controller's size, each into its place of the buffer, until one fails |
| SpiFlash.Driver.Write | Core/Modified_OpenSource/Kernel_amiext_ex-src/22-drivers_mtd_spichips_generic.c:897-1092 | state and result for every outcome of every transfer, first up to the second die and then in it; the lock is free on every return path |
| SpiFlash.Driver.WriteLoop | Core/Modified_OpenSource/Kernel_amiext_ex-src/22-drivers_mtd_spichips_generic.c:966-1072 | waits for the chip before each chunk and stops at the first that fails, in one of three ways |
| SpiFlash.Driver.Erase | Core/Modified_OpenSource/Kernel_amiext_ex-src/22-drivers_mtd_spichips_generic.c:466-593 | state and result for every outcome of every transfer, on either die; the lock is free on every return path |
| SpiFlash.Driver.SetUpWideRead | Core/Modified_OpenSource/Kernel_amiext_ex-src/22-drivers_mtd_spichips_generic.c:698-842 | in 4-byte mode the buffer filled for each I/O mode holds the read command of the address |
| SpiFlash.Driver.SetUpNarrowRead | Core/Modified_OpenSource/Kernel_amiext_ex-src/22-drivers_mtd_spichips_generic.c:698-816 | so it does in 3-byte mode |
| SpiFlash.Driver.SetUpProgram | Core/Modified_OpenSource/Kernel_amiext_ex-src/22-drivers_mtd_spichips_generic.c:983-1030 | the buffer holds the program command of the address |
| SpiFlash.Driver.SetUpErase | Core/Modified_OpenSource/Kernel_amiext_ex-src/22-drivers_mtd_spichips_generic.c:516-537 | the buffer holds the erase command of the address |
| SpiFlash.Driver.Carry | Core/Modified_OpenSource/Kernel_amiext_ex-src/22-drivers_mtd_spichips_generic.c:1032-1036 | write enable, command, write disable, of which only the command's result is returned |
| SpiFlash.Driver.Poll | Core/Modified_OpenSource/Kernel_amiext_ex-src/22-drivers_mtd_spichips_generic.c:416-462 | the loop of at most 4,000,000 polls ends, for every outcome of every poll, as the polling function does |
| SpiFlash.Driver.SelectDie | Core/Modified_OpenSource/Kernel_amiext_ex-src/22-drivers_mtd_spichips_generic.c:166-188 | waits, then sends the die select, unless the wait fails |
| SpiFlash.Driver.SetAddressMode | Core/Modified_OpenSource/Kernel_amiext_ex-src/22-drivers_mtd_spichips_generic.c:190-216 | waits, then sends the mode command, between write enable and write disable for the chips that want it |
| SpiReads.ReadParses | Core/Modified_OpenSource/Kernel_amiext_ex-src/22-drivers_mtd_spichips_generic.c:698-842 | every read command buffer decodes, in the mode the driver has entered, to a read of the requested address |
| SpiOpcodes.ReadLines | Core/Modified_OpenSource/Kernel_amiext_ex-src/22-drivers_mtd_spichips_generic.c:698-842 | every read is sent with an opcode for the data lines of the I/O mode, three or four address bytes, and exactly the dummy bytes the chip waits for in that mode; the opcodes for four address bytes are used for exactly the chips that have them |
| SpiOpcodes.TransferSize | Core/Modified_OpenSource/Kernel_amiext_ex-src/22-drivers_mtd_spichips_generic.c:684-696 | no transfer is larger than the controller can read unless it is the whole read, in burst and four-line modes; and none is smaller than it could be |
| SpiOpcodes.ReadTransfers | Core/Modified_OpenSource/Kernel_amiext_ex-src/22-drivers_mtd_spichips_generic.c:682-877 | a read that succeeds takes one transfer in those modes, and else as few as the largest transfer allows |
| SpiWrites.ProgramParses | Core/Modified_OpenSource/Kernel_amiext_ex-src/22-drivers_mtd_spichips_generic.c:983-1030 | the program command buffer decodes, in that mode, to a program at the requested address |
| SpiOpcodes.ProgramLines | Core/Modified_OpenSource/Kernel_amiext_ex-src/22-drivers_mtd_spichips_generic.c:983-1027 | so is every page program in the three modes there are |
| SpiWrites.EraseParses | Core/Modified_OpenSource/Kernel_amiext_ex-src/22-drivers_mtd_spichips_generic.c:516-537 | so does the erase command buffer |
| SpiOutcomes.WritePagesFollows | Core/Modified_OpenSource/Kernel_amiext_ex-src/30-drivers_mtd_spichips_spiaccess.c:210-258 | for every outcome of every transfer, a write keeps the shape of the chip; memory changes only if an array command reached the chip; nothing fails if all transfers succeed |
| SpiOutcomes.ReadPiecesFollows | Core/Modified_OpenSource/Kernel_amiext_ex-src/30-drivers_mtd_spichips_spiaccess.c:175-208 | the same for a read; it writes no byte outside its part of the buffer, and none at all if no array command gets through |
| SpiFaults.PollOutcome | Core/Modified_OpenSource/Kernel_amiext_ex-src/22-drivers_mtd_spichips_generic.c:416-462 | if register reads succeed, polling reports ready exactly if the die gets ready within the polls that are left |
| SpiFaults.PickOutcome | Core/Modified_OpenSource/Kernel_amiext_ex-src/22-drivers_mtd_spichips_generic.c:166-188 | with control commands succeeding, the die is selected exactly if the chip gets ready in time |
| SpiFaults.ModeOutcome | Core/Modified_OpenSource/Kernel_amiext_ex-src/22-drivers_mtd_spichips_generic.c:190-216 | and the address mode changes exactly if it does |
| SpiReads.ReadLanded | Core/Modified_OpenSource/Kernel_amiext_ex-src/22-drivers_mtd_spichips_generic.c:635-893 | with every command without an address succeeding except, maybe, the select of die 1: a read on one die delivers the bytes of where it lands, its own place or 32 megabytes lower, and a failed transfer is reported exactly if the request does not use 4-byte mode |
| SpiReads.ReadReported | Core/Modified_OpenSource/Kernel_amiext_ex-src/22-drivers_mtd_spichips_generic.c:596-894 | a read on one die without failures fills its part of the buffer; a failed transfer is reported exactly if the request does not use 4-byte mode |
| SpiReads.ReadPiecesResult | Core/Modified_OpenSource/Kernel_amiext_ex-src/30-drivers_mtd_spichips_spiaccess.c:175-208 | a read of any range, over dies and pieces, returns 0 exactly if no transfer failed in 3-byte mode |
| SpiWrites.LoopOutcome | Core/Modified_OpenSource/Kernel_amiext_ex-src/22-drivers_mtd_spichips_generic.c:966-1072 | the programming loop, for any failing or slow chunks: if it ends done, nothing failed and all chunks are programmed, slow or not; without a slow chunk it ends so or with the failed one reported |
| SpiWrites.WriteLanded | Core/Modified_OpenSource/Kernel_amiext_ex-src/22-drivers_mtd_spichips_generic.c:938-1092 | under the same condition, a write on one die without a slow program or a failure programs its chunks where it lands, and a failed page is reported exactly if the request does not use 4-byte mode |
| SpiWrites.WriteReported | Core/Modified_OpenSource/Kernel_amiext_ex-src/22-drivers_mtd_spichips_generic.c:897-1092 | a write on one die, without a slow program and without failures, programs its chunks; a failed page is reported exactly if the request does not use 4-byte mode |
| SpiWrites.WritePagesResult | Core/Modified_OpenSource/Kernel_amiext_ex-src/30-drivers_mtd_spichips_spiaccess.c:210-258 | a write of any range, without a slow program, returns 0 exactly if no page failed in 3-byte mode, and without failures programs exactly the range |
| SpiWrites.EraseLanded | Core/Modified_OpenSource/Kernel_amiext_ex-src/22-drivers_mtd_spichips_generic.c:490-593 | so does an erase |
| SpiWrites.EraseReported | Core/Modified_OpenSource/Kernel_amiext_ex-src/22-drivers_mtd_spichips_generic.c:466-593 | an erase that is not slow and does not fail erases its sector; a failed one is reported exactly if the request does not use 4-byte mode |
| SpiWrites.EraseBlocksResult | Core/Modified_OpenSource/Kernel_amiext_ex-src/30-drivers_mtd_spichips_spiaccess.c:417-430 | the erase loop, without a slow erase, returns 0 exactly if no block failed in 3-byte mode |
| SpiWrites.EnableLost | Core/Modified_OpenSource/Kernel_amiext_ex-src/22-drivers_mtd_spichips_generic.c:540-542 | the array command is carried out exactly if the write enable reached the chip; if not, it is refused by the chip and returned as a success all the same |
| SpiUnreported.PollIff | Core/Modified_OpenSource/Kernel_amiext_ex-src/22-drivers_mtd_spichips_generic.c:416-462 | for every outcome of every transfer, waiting succeeds exactly if the die gets ready within the polls that are left and every status read up to the one that says so succeeds |
| SpiUnreported.ExitIff | Core/Modified_OpenSource/Kernel_amiext_ex-src/22-drivers_mtd_spichips_generic.c:190-216 | leaving 4-byte mode succeeds exactly if waiting does and the mode command succeeds |
| SpiUnreported.WriteErrorIff | Core/Modified_OpenSource/Kernel_amiext_ex-src/22-drivers_mtd_spichips_generic.c:1048-1070 | for every outcome of the other transfers, a failed page is reported exactly if there is no 4-byte mode to leave, or the die does not get ready in time, or one of its status reads fails, or the mode command does |
| SpiUnreported.ReadErrorIff | Core/Modified_OpenSource/Kernel_amiext_ex-src/22-drivers_mtd_spichips_generic.c:848-871 | the same for a read |
| SpiUnreported.EraseErrorIff | Core/Modified_OpenSource/Kernel_amiext_ex-src/22-drivers_mtd_spichips_generic.c:554-573 | the same for an erase |
| SpiUnreported.WriteUnreported | Core/Modified_OpenSource/Kernel_amiext_ex-src/22-drivers_mtd_spichips_generic.c:897-1092 | a write that uses 4-byte mode, with no array command getting through, returns 0 and changes no byte |
| SpiUnreported.EnableLostPage | Core/Modified_OpenSource/Kernel_amiext_ex-src/22-drivers_mtd_spichips_generic.c:1032-1036 | a page in 3-byte mode on die 0 of an idle chip, everything but write enables succeeding: it is returned as written in any case, and programmed exactly if the chip saw the write enable |
| SpiSlow.WriteRestIff | Core/Modified_OpenSource/Kernel_amiext_ex-src/22-drivers_mtd_spichips_generic.c:964-1091 | a write that returns 0 leaves die 0 selected, every die in 3-byte mode and a chip that gets ready in time exactly if none of its page programs takes longer than the driver waits |
| SpiSlow.WriteSelects | Core/Modified_OpenSource/Kernel_amiext_ex-src/22-drivers_mtd_spichips_generic.c:1038-1091 | a write for die 1 leaves die 0 selected exactly if, where its loop ends, the flag status has been read as ready and the chip needs fewer status reads than the limit, or twice the limit if there is a 4-byte mode to leave as well |
| SpiSlow.ModeStaysOn | Core/Modified_OpenSource/Kernel_amiext_ex-src/22-drivers_mtd_spichips_generic.c:964-1091 | a write leaves its die in 4-byte mode exactly if it entered that mode and one of its page programs takes longer than the driver waits |
| SpiSlow.EveryProgramSlow | Core/Modified_OpenSource/Kernel_amiext_ex-src/22-drivers_mtd_spichips_generic.c:964-1091 | on a chip whose programs take one poll too long, every write that uses 4-byte mode leaves it on |
| SpiSlow.EraseRestIff | Core/Modified_OpenSource/Kernel_amiext_ex-src/22-drivers_mtd_spichips_generic.c:466-593 | an erase that returns 0 leaves everything in its place exactly if it does not take longer than the driver waits |
| SpiSlow.EraseSelects | Core/Modified_OpenSource/Kernel_amiext_ex-src/22-drivers_mtd_spichips_generic.c:543-593 | an erase on die 1 leaves die 0 selected under the same condition as a write |
| SpiSlow.EraseModeStaysOn | Core/Modified_OpenSource/Kernel_amiext_ex-src/22-drivers_mtd_spichips_generic.c:498-593 | an erase leaves its die in 4-byte mode exactly if it entered that mode and takes longer than the driver waits |
| SpiSlow.OnePage | Core/Modified_OpenSource/Kernel_amiext_ex-src/22-drivers_mtd_spichips_generic.c:964-1091 | a page whose program takes `d` status reads, every transfer succeeding, is programmed and returned as written whatever `d` is; its die stays in 4-byte mode, and die 1 selected, exactly as `d` compares with the limits |
| SpiAstray.SelectLost | Core/Modified_OpenSource/Kernel_amiext_ex-src/22-drivers_mtd_spichips_generic.c:492-496 | with the select of die 1 lost and nothing else failing, in 3-byte and in 4-byte mode: a write for die 1 programs die 0, an erase erases a sector of die 0 and a read delivers bytes of die 0, each 32 megabytes too low and returned as a success |
| SpiAstray.DieSelectIgnored | Core/Modified_OpenSource/Kernel_amiext_ex-src/22-drivers_mtd_spichips_generic.c:938-950 | a write for die 1 to a chip still busy on die 0 for `b` polls: it goes to die 1 if `b` is below the limit of polls and the select gets through, to die 0, 32 megabytes too low and reported like any other, if `b` is below twice the limit, and nowhere, with an error, otherwise |
| SpiAstray.WriteAstray | Core/Modified_OpenSource/Kernel_amiext_ex-src/22-drivers_mtd_spichips_generic.c:934-1092 | with die 1 left selected, a write for die 0 is carried out at the same place of die 1 and reported like any other, and die 1 stays selected |
| SpiAstray.NextOnDie0 | Core/Modified_OpenSource/Kernel_amiext_ex-src/30-drivers_mtd_spichips_spiaccess.c:210-258 | two pages in a row, every transfer succeeding: a slow one on die 0 and then one for die 1, which goes to die 0; both return 0 |
| SpiAstray.NextOnDie1 | Core/Modified_OpenSource/Kernel_amiext_ex-src/30-drivers_mtd_spichips_spiaccess.c:210-258 | a slow page on die 1 and then one for die 0, which goes to die 1; both return 0 |
| SpiInputs.OneByteUnreported | Core/Modified_OpenSource/Kernel_amiext_ex-src/30-drivers_mtd_spichips_spiaccess.c:210-258 | a 32 megabyte N25Q256A with quad input and output, one byte, commands with an address failing: page write, block erase and read return 0 with memory and buffer as they were |
| SpiInputs.ByteNotEnabled | Core/Modified_OpenSource/Kernel_amiext_ex-src/30-drivers_mtd_spichips_spiaccess.c:210-258 | a W25Q128 whose write enables are lost: a byte is returned as written and the memory is as it was |
| SpiInputs.WrongDie0 | Core/Modified_OpenSource/Kernel_amiext_ex-src/30-drivers_mtd_spichips_spiaccess.c:210-258 | a W25M512 without quad output, every transfer succeeding: after a slow byte on die 0, a byte written to the first address of die 1 is found at the first address of die 0; both writes return 0 |
| SpiInputs.WrongDie1 | Core/Modified_OpenSource/Kernel_amiext_ex-src/30-drivers_mtd_spichips_spiaccess.c:210-258 | the same chip: after a slow byte on die 1, a byte written to the first address of die 0 is found at the first address of die 1; both writes return 0 and die 1 stays selected |
| SpiProtocol.Cycle | Core/Modified_OpenSource/Kernel_amiext_ex-src/22-drivers_mtd_spichips_generic.c:1032-1036 | the three commands of a program or erase, on an idle chip, have exactly the effect of the middle one |
| SpiProtocol.SwitchedMode | Core/Modified_OpenSource/Kernel_amiext_ex-src/22-drivers_mtd_spichips_generic.c:203-209 | the mode change takes effect on chips with and without the latch requirement and leaves the latch clear |
| SpiProtocol.ReadAnswer | Core/Modified_OpenSource/Kernel_amiext_ex-src/22-drivers_mtd_spichips_generic.c:698-842 | a read command on an idle die returns its bytes in order and changes nothing |
| SpiProtocol.NarrowReaches | Core/Modified_OpenSource/Kernel_amiext_ex-src/22-drivers_mtd_spichips_generic.c:664-678 | wherever the driver stays in 3-byte mode three address bytes reach the whole access |
| SpiChip.AddressRoundTrip | Core/Modified_OpenSource/Kernel_amiext_ex-src/22-drivers_mtd_spichips_generic.c:707-720 | three address bytes carry 24 bits and four carry 32 |
| SpiFlat.ErasedThenCleared | Core/Modified_OpenSource/Kernel_amiext_ex-src/30-drivers_mtd_spichips_spiaccess.c:318-349 | writing into an erased range stores exactly the buffer |
| SpiFlat.StoresExactly | Core/Modified_OpenSource/Kernel_amiext_ex-src/30-drivers_mtd_spichips_spiaccess.c:318-349 | a written range reads back as the buffer exactly if no bit had to be set |
| SpiFlat.ChunkedExactIff | Core/Modified_OpenSource/Kernel_amiext_ex-src/22-drivers_mtd_spichips_generic.c:966-1072 | on a chip whose page program wraps, the chunks of one call store what they should on every memory exactly if the call starts a page or stays in one |
| SpiFlat.WrittenExact | Core/Modified_OpenSource/Kernel_amiext_ex-src/30-drivers_mtd_spichips_spiaccess.c:219-252 | requests cut at pages are exact, also when one is split between two dies |
| SpiFlat.FlatChunked | Core/Modified_OpenSource/Kernel_amiext_ex-src/22-drivers_mtd_spichips_generic.c:938-946 | programming a die is programming the flat array at the die's place |
| SpiFlat.FlatSectorErased | Core/Modified_OpenSource/Kernel_amiext_ex-src/22-drivers_mtd_spichips_generic.c:490-496 | erasing a sector of a die is erasing it in the flat array |
| SpiFlat.EraseWalkExact | Core/Modified_OpenSource/Kernel_amiext_ex-src/30-drivers_mtd_spichips_spiaccess.c:417-430 | steps of one sector from a sector boundary erase exactly their range |
| SpiErase.AcceptedIff | Core/Modified_OpenSource/Kernel_amiext_ex-src/30-drivers_mtd_spichips_spiaccess.c:362-414 | on any map with regions in order, a request is accepted exactly if it ends inside the device, its start is a multiple of the erase size of the region that holds it, and its end of the one that holds the end |
| SpiErase.AcceptedUniform | Core/Modified_OpenSource/Kernel_amiext_ex-src/30-drivers_mtd_spichips_spiaccess.c:362-414 | with one erase size everywhere, accepted is exactly what has both ends at multiples of it and lies inside the device |
| SpiErase.UniformErase | Core/Modified_OpenSource/Kernel_amiext_ex-src/30-drivers_mtd_spichips_spiaccess.c:373-430 | with one erase size everywhere every accepted request is a whole number of blocks and erases exactly its range |
| SpiErase.LoopEndsIff | Core/Modified_OpenSource/Kernel_amiext_ex-src/30-drivers_mtd_spichips_spiaccess.c:421-430 | in the 32-bit arithmetic of the erase loop the remaining length reaches 0 exactly if the length is a multiple of the first region's erase size |
| SpiErase.ListedEraseExact | Core/Modified_OpenSource/Kernel_amiext_ex-src/30-drivers_mtd_spichips_spiaccess.c:373-430 | with every erase map of the chip tables, and the configured one, a request is accepted exactly if both ends are multiples of the erase size inside the device, and then ends after erasing exactly its range |
| SpiErase.MixedMapDiverges | Core/Modified_OpenSource/Kernel_amiext_ex-src/30-drivers_mtd_spichips_spiaccess.c:373-430 | a map with two erase sizes, as no chip table has, and an accepted request whose loop never ends |
| FtgmacTx.XmitKeepsInv | Core/Modified_OpenSource/Kernel_basesoc_ast_ex-src/45-drivers_net_ethernet_aspeed_ftgmac100.c:666-710 | an accepted packet joins the end of the window and fills a slot that was fully reset, so its descriptor words are exactly the packet's; the queue is stopped exactly when the ring is full |
| FtgmacTx.LengthField | Core/Modified_OpenSource/Kernel_basesoc_ast_ex-src/45-drivers_net_ethernet_aspeed_ftgmac100.c:542-546 | for packets within the size limit the ORed length field is the larger of 60 and the length, and the end-of-ring bit is on slot 511 only |
| FtgmacTx.OfferExact | Core/Modified_OpenSource/Kernel_basesoc_ast_ex-src/45-drivers_net_ethernet_aspeed_ftgmac100.c:1148-1175 | while the queue is awake, a packet of more than 1518 bytes, or one that cannot be mapped, is dropped and nothing else changes; any other is in the next slot afterwards, bit by bit: length at least 60, first and last segment, owned, end of ring on slot 511 only, and each checksum to fill in exactly for its protocol; the other slots stay, and the queue is stopped exactly if the ring is full |
| FtgmacTx.FrameInRing | Core/Modified_OpenSource/Kernel_basesoc_ast_ex-src/45-drivers_net_ethernet_aspeed_ftgmac100.c:666-710 | every packet in flight that the controller still owns stands so in the ring, in order from the oldest on |
| FtgmacTx.SentKeepsInv | Core/Modified_OpenSource/Kernel_basesoc_ast_ex-src/45-drivers_net_ethernet_aspeed_ftgmac100.c:512-515 | the controller may finish descriptors in any order, well or not, without breaking the invariant |
| FtgmacTx.CompletePacketKeepsInv | Core/Modified_OpenSource/Kernel_basesoc_ast_ex-src/45-drivers_net_ethernet_aspeed_ftgmac100.c:623-658 | one reclaim step frees the oldest packet in flight exactly if the controller is done with it, resets its slot and wakes the queue |
| FtgmacTx.CompleteKeepsInv | Core/Modified_OpenSource/Kernel_basesoc_ast_ex-src/45-drivers_net_ethernet_aspeed_ftgmac100.c:660-664 | reclaiming frees, in order, the longest prefix the controller is done with |
| FtgmacTx.EveryRunInOrder | Core/Modified_OpenSource/Kernel_basesoc_ast_ex-src/45-drivers_net_ethernet_aspeed_ftgmac100.c:503-710 | over every run, the buffers freed followed by those in flight are the accepted ones in order of submission |
| FtgmacTx.StopFrees | Core/Modified_OpenSource/Kernel_basesoc_ast_ex-src/45-drivers_net_ethernet_aspeed_ftgmac100.c:759-769 | stopping frees what is in flight in slot order |
| FtgmacTx.SlotOrderIff | Core/Modified_OpenSource/Kernel_basesoc_ast_ex-src/45-drivers_net_ethernet_aspeed_ftgmac100.c:759-769 | slot order is submission order exactly if the pending window does not go round the end of the ring |
| FtgmacTx.StopInOrderIff | Core/Modified_OpenSource/Kernel_basesoc_ast_ex-src/45-drivers_net_ethernet_aspeed_ftgmac100.c:759-769 | what a stop frees, after what was freed before, is in order of submission exactly if the window does not go round the end of the ring |
| FtgmacTx.EveryBufferOnce | Core/Modified_OpenSource/Kernel_basesoc_ast_ex-src/45-drivers_net_ethernet_aspeed_ftgmac100.c:1084-1175 | from open through any run to stop, every accepted buffer is freed exactly once, in submission order until the stop, and to the end exactly if the window at the stop does not go round the end of the ring |
| FtgmacTx.StopReorders | Core/Modified_OpenSource/Kernel_basesoc_ast_ex-src/45-drivers_net_ethernet_aspeed_ftgmac100.c:1084-1175 | a run from open to a window in the last slot and the first: the stop frees the younger packet before the older one |
| FtgmacTxRing.TxRing.constructor | Core/Modified_OpenSource/Kernel_basesoc_ast_ex-src/45-drivers_net_ethernet_aspeed_ftgmac100.c:785-799 | the ring as it is opened |
| FtgmacTxRing.TxRing.HardStartXmit | Core/Modified_OpenSource/Kernel_basesoc_ast_ex-src/45-drivers_net_ethernet_aspeed_ftgmac100.c:1148-1175 | packets of more than 1518 bytes and unmappable ones are dropped and nothing else changes; any other is put in the next slot, bit by bit as in `FtgmacTx.OfferExact` |
| FtgmacTxRing.TxRing.Xmit | Core/Modified_OpenSource/Kernel_basesoc_ast_ex-src/45-drivers_net_ethernet_aspeed_ftgmac100.c:666-710 | the in-place setters on the descriptor, the pointer and the pending count give the state of the function |
| FtgmacTxRing.TxRing.TxCompletePacket | Core/Modified_OpenSource/Kernel_basesoc_ast_ex-src/45-drivers_net_ethernet_aspeed_ftgmac100.c:623-658 | one in-place reclaim step; the window loses its head |
| FtgmacTxRing.TxRing.TxComplete | Core/Modified_OpenSource/Kernel_basesoc_ast_ex-src/45-drivers_net_ethernet_aspeed_ftgmac100.c:660-664 | the loop ends; freed and in-flight packets together are unchanged |
| FtgmacTxRing.TxRing.FreeBuffers | Core/Modified_OpenSource/Kernel_basesoc_ast_ex-src/45-drivers_net_ethernet_aspeed_ftgmac100.c:743-773 | the loop over all slots frees the packets in flight |
| FtgmacRx.PollDelivers | Core/Modified_OpenSource/Kernel_basesoc_ast_ex-src/45-drivers_net_ethernet_aspeed_ftgmac100.c:1025-1033 | a poll of whole frames, with what is left of an earlier one before them, delivers exactly the error-free ones among the first `k`, with their pages and lengths, in order, and leaves the others; it stops before the last only with its budget used up |
| FtgmacRx.EveryRunDelivers | Core/Modified_OpenSource/Kernel_basesoc_ast_ex-src/45-drivers_net_ethernet_aspeed_ftgmac100.c:1025-1033 | over every sequence of arriving frames and polls, whatever their budgets, the frames delivered are exactly the error-free ones among the first `k` that arrived, in order, and the ring holds the others |
| FtgmacRx.GoodFramesOfRuns | Core/Modified_OpenSource/Kernel_basesoc_ast_ex-src/45-drivers_net_ethernet_aspeed_ftgmac100.c:424-498 | the good frames of a ring that holds whole frames are exactly its error-free frames in order |
| FtgmacRx.PollInOrder | Core/Modified_OpenSource/Kernel_basesoc_ast_ex-src/45-drivers_net_ethernet_aspeed_ftgmac100.c:1027-1032 | what a poll delivers and what it leaves are together the good frames of the ring, in ring order; a poll that stops by itself leaves nothing |
| FtgmacRx.PollTwiceFrames | Core/Modified_OpenSource/Kernel_basesoc_ast_ex-src/45-drivers_net_ethernet_aspeed_ftgmac100.c:1027-1032 | two polls of whole frames deliver, in order, the error-free ones among the first `k`, and as many as both budgets allow unless they empty the ring |
| FtgmacRx.WithinBudget | Core/Modified_OpenSource/Kernel_basesoc_ast_ex-src/45-drivers_net_ethernet_aspeed_ftgmac100.c:1027-1032 | a poll delivers at most its budget, or one frame when the budget is 0 |
| FtgmacRx.BudgetKeptIff | Core/Modified_OpenSource/Kernel_basesoc_ast_ex-src/45-drivers_net_ethernet_aspeed_ftgmac100.c:1027-1032 | a poll keeps to its budget exactly if the budget is positive or the first packet is one to drop |
| FtgmacRx.BudgetOfNothing | Core/Modified_OpenSource/Kernel_basesoc_ast_ex-src/45-drivers_net_ethernet_aspeed_ftgmac100.c:1027-1032 | a ring for which a budget of 0 delivers a frame |
| FtgmacRx.PollStops | Core/Modified_OpenSource/Kernel_basesoc_ast_ex-src/45-drivers_net_ethernet_aspeed_ftgmac100.c:1025-1033 | a poll that stops by itself leaves nothing; one that is cut off by a positive budget has used all of it |
| FtgmacRx.TidyAppend | Core/Modified_OpenSource/Kernel_basesoc_ast_ex-src/45-drivers_net_ethernet_aspeed_ftgmac100.c:341-348 | whole frames keep every begun frame in the ring complete |
| FtgmacRx.TidyPoll | Core/Modified_OpenSource/Kernel_basesoc_ast_ex-src/45-drivers_net_ethernet_aspeed_ftgmac100.c:1025-1033 | if every begun frame in the ring is complete, the poll ends and leaves such a ring |
| FtgmacRxRing.Advance | Core/Modified_OpenSource/Kernel_basesoc_ast_ex-src/45-drivers_net_ethernet_aspeed_ftgmac100.c:220-224 | giving a descriptor back keeps the end-of-ring bit and shortens the filled window by its head |
| FtgmacRxRing.PageReplaced | Core/Modified_OpenSource/Kernel_basesoc_ast_ex-src/45-drivers_net_ethernet_aspeed_ftgmac100.c:715-741 | a page given to a frame is replaced by a fresh one and no page is ever in two places |
| FtgmacRxRing.FrameEndsIff | Core/Modified_OpenSource/Kernel_basesoc_ast_ex-src/45-drivers_net_ethernet_aspeed_ftgmac100.c:462-483 | the loop over the segments of a frame ends exactly if one of the filled descriptors has the last-segment bit |
| FtgmacRxRing.StatusBits | Core/Modified_OpenSource/Kernel_basesoc_ast_ex-src/45-drivers_net_ethernet_aspeed_ftgmac100.c:353-401 | a frame is dropped exactly for receive error, CRC error, too long, too short, odd nibble or a wrong IP checksum, and need not be checked exactly for TCP or UDP without the error of that protocol, in terms of the bits |
| FtgmacRxRing.WindowShows | Core/Modified_OpenSource/Kernel_basesoc_ast_ex-src/45-drivers_net_ethernet_aspeed_ftgmac100.c:205-316 | what the driver will make of each filled descriptor, in terms of the bits of its words: flags, length, status and page; the descriptors behind the filled ones are not ready |
| FtgmacRxRing.PassedDelivered | Core/Modified_OpenSource/Kernel_basesoc_ast_ex-src/45-drivers_net_ethernet_aspeed_ftgmac100.c:424-501 | of frames given by their status words, exactly those are delivered whose first words have no error bit and for which there is memory, in order, each with the sizes, the length and the checksum mark its words say |
| FtgmacRxRing.RxRing.constructor | Core/Modified_OpenSource/Kernel_basesoc_ast_ex-src/45-drivers_net_ethernet_aspeed_ftgmac100.c:787-795 | 256 fresh pages, no filled descriptor, the end-of-ring bit on the last slot |
| FtgmacRxRing.RxRing.AllocPage | Core/Modified_OpenSource/Kernel_basesoc_ast_ex-src/45-drivers_net_ethernet_aspeed_ftgmac100.c:715-741 | fresh page, its mapping, and the descriptor back to the controller with the end-of-ring bit kept |
| FtgmacRxRing.RxRing.LocateFirstSegment | Core/Modified_OpenSource/Kernel_basesoc_ast_ex-src/45-drivers_net_ethernet_aspeed_ftgmac100.c:336-351 | terminates at the first descriptor that begins a frame, having given back those before it |
| FtgmacRxRing.RxRing.DropPacket | Core/Modified_OpenSource/Kernel_basesoc_ast_ex-src/45-drivers_net_ethernet_aspeed_ftgmac100.c:403-422 | terminates and gives back exactly the descriptors of the frame, with their pages |
| FtgmacRxRing.RxRing.TakeFrame | Core/Modified_OpenSource/Kernel_basesoc_ast_ex-src/45-drivers_net_ethernet_aspeed_ftgmac100.c:462-483 | terminates at the last segment; pages and sizes in order, length the sum of the sizes, each page given away once |
| FtgmacRxRing.RxRing.RxPacket | Core/Modified_OpenSource/Kernel_basesoc_ast_ex-src/45-drivers_net_ethernet_aspeed_ftgmac100.c:424-498 | takes exactly one frame off: drops error frames and frames without memory, delivers the others, whenever the packet ends |
| FtgmacRxRing.RxRing.PacketError | Core/Modified_OpenSource/Kernel_basesoc_ast_ex-src/45-drivers_net_ethernet_aspeed_ftgmac100.c:353-401 | an error is any of the six error bits, by name and by position |
| FtgmacRxRing.RxRing.Poll | Core/Modified_OpenSource/Kernel_basesoc_ast_ex-src/45-drivers_net_ethernet_aspeed_ftgmac100.c:1025-1033 | whenever every packet it comes to ends, the receive loop delivers and leaves what the poll function says; with a positive budget, `completed` means that nothing filled is left |
| FtgmacRxRing.RxRing.HardwareReceive | Core/Modified_OpenSource/Kernel_basesoc_ast_ex-src/45-drivers_net_ethernet_aspeed_ftgmac100.c:205-218 | the controller's side: the segments of a frame, as their status words show them, are appended to the filled ones, as one whole frame in the pages of the ring from there on; no descriptor changes its page |
| FtgmacRxRing.RxRing.ReceiveAndPoll | Core/Modified_OpenSource/Kernel_basesoc_ast_ex-src/45-drivers_net_ethernet_aspeed_ftgmac100.c:1025-1045 | frames the controller receives behind those still in the ring, and behind what is left of a dropped one, are polled: what is delivered is exactly the error-free frames among the first `k` that arrived, in order, as their status words say, and the rest is still in the ring |
| Crc.TableIsEightSteps | Core/Modified_OpenSource/Kernel_amiext_ex-src/10-drivers_mtd_maps_crc32.h:6-75 | every table entry is eight bit-serial steps of its index |
| CrcForms.TableStepIsEight | Core/Modified_OpenSource/Kernel_amiext_ex-src/11-drivers_mtd_maps_fmhcore.c:176-178 | one table look-up is the register and the byte through eight bit-serial steps |
| CrcForms.CalculateCRC32 | Core/Modified_OpenSource/Kernel_amiext_ex-src/11-drivers_mtd_maps_fmhcore.c:170-180 | the table-driven loop returns the complement of the bit-serial register of the buffer |
| CrcForms.Stream.DoCRC32 | Core/Modified_OpenSource/Kernel_amiext_ex-src/11-drivers_mtd_maps_fmhcore.c:189-194 | one byte into the register |
| CrcForms.Stream.Digest | Core/Modified_OpenSource/Kernel_amiext_ex-src/11-drivers_mtd_maps_fmhcore.c:182-201 | begin, any number of bytes, end: the same complement |
| CrcForms.AnySplit | Core/Modified_OpenSource/Kernel_amiext_ex-src/11-drivers_mtd_maps_fmhcore.c:182-201 | the register does not depend on how the input is cut into pieces |
| CrcForms.SerialCrc32 | Core/Modified_OpenSource/Kernel_basesoc_ast_ex-src/32-drivers_net_ethernet_aspeed_ast_gmac.c:1643-1664 | the bit-serial loops return the register itself, without the complement |
| CrcForms.SerialByte | Core/Modified_OpenSource/Kernel_basesoc_ast_ex-src/32-drivers_net_ethernet_aspeed_ast_gmac.c:1654-1661 | the inner loop is eight steps of the register and the byte |
| CrcForms.RegisterInjective | Core/Modified_OpenSource/Kernel_amiext_ex-src/11-drivers_mtd_maps_fmhcore.c:176-178 | whatever bytes follow, two different registers stay different |
| CrcForms.FourBytes | Core/Modified_OpenSource/Kernel_amiext_ex-src/11-drivers_mtd_maps_fmhcore.c:176-178 | four bytes through the register are their 32-bit word through 32 steps |
| CrcForms.BurstNoticed | Core/Modified_OpenSource/Kernel_amiext_ex-src/11-drivers_mtd_maps_fmhcore.c:170-201 | two messages of equal length that differ, and only within four consecutive bytes, always have different CRCs |
| CrcForms.ResidueIff | Core/Modified_OpenSource/Kernel_amiext_ex-src/11-drivers_mtd_maps_fmhcore.c:170-201 | the register after a message and four more bytes is 0xDEBB20E3 exactly if these are the CRC of the message, lowest byte first |
| CrcForms.BytesOf | Core/Modified_OpenSource/Kernel_amiext_ex-src/11-drivers_mtd_maps_fmhcore.c:176-178 | the lowest first: byte `i` is bits `8i` to `8i+7` of the word |
| CrcForms.CheckValue | Core/Modified_OpenSource/Kernel_amiext_ex-src/11-drivers_mtd_maps_fmhcore.c:170-201 | the CRC of the empty message is 0, and that of "123456789" is 0xCBF43926 |
| Fmh.HeaderRoundTrip | Core/Modified_OpenSource/Kernel_amiext_ex-src/11-drivers_mtd_maps_fmhcore.c:51-65 | a built header is accepted and gives back allocated size, module information, version 1.8 and size 64 |
| Fmh.HeaderLayout | Core/Modified_OpenSource/Kernel_amiext_ex-src/11-drivers_mtd_maps_fmhcore.c:128-149 | a built header byte by byte: signature text, version 1.8, size 64, allocated size lowest byte first, module information, end mark, and a checksum byte that makes the sum a multiple of 256 |
| Fmh.HeaderIff | Core/Modified_OpenSource/Kernel_amiext_ex-src/11-drivers_mtd_maps_fmhcore.c:51-65 | 64 bytes are a header exactly if they begin with the signature text, end in the end mark and sum to a multiple of 256 |
| Fmh.BuiltSays | Core/Modified_OpenSource/Kernel_amiext_ex-src/12-drivers_mtd_maps_fmh.h:28-57 | a header built for a module has its name, type, location and size at bytes 24, 34, 36 and 40, numbers lowest byte first |
| Fmh.ChangeNoticed | Core/Modified_OpenSource/Kernel_amiext_ex-src/11-drivers_mtd_maps_fmhcore.c:36-65 | changing any byte of any header to any other value makes it rejected |
| Fmh.AlternateRoundTrip | Core/Modified_OpenSource/Kernel_amiext_ex-src/11-drivers_mtd_maps_fmhcore.c:67-81 | a built alternate header links to its offset |
| Fmh.AlternateLayout | Core/Modified_OpenSource/Kernel_amiext_ex-src/11-drivers_mtd_maps_fmhcore.c:151-166 | a built alternate header byte by byte |
| Fmh.AlternateIff | Core/Modified_OpenSource/Kernel_amiext_ex-src/11-drivers_mtd_maps_fmhcore.c:67-81 | 16 bytes link to the number at byte 4 exactly if signature, end mark and sum are right, and nowhere otherwise |
| Fmh.ValidateModule100 | Core/Modified_OpenSource/Kernel_amiext_ex-src/11-drivers_mtd_maps_fmhcore.c:36-49 | the loop is the sum of the bytes modulo 256 |
| Fmh.CalculateModule100 | Core/Modified_OpenSource/Kernel_amiext_ex-src/11-drivers_mtd_maps_fmhcore.c:21-34 | the negated sum is the byte that makes the total vanish |
| Fmh.CreateFMH | Core/Modified_OpenSource/Kernel_amiext_ex-src/11-drivers_mtd_maps_fmhcore.c:127-149 | filling the structure in place yields the header of those fields |
| Fmh.CreateAlternateFMH | Core/Modified_OpenSource/Kernel_amiext_ex-src/11-drivers_mtd_maps_fmhcore.c:151-166 | filling the structure in place yields the alternate header of that offset |
| FmhScan.AlternateFound | Core/Modified_OpenSource/Kernel_amiext_ex-src/11-drivers_mtd_maps_fmhcore.c:85-125 | a sector that starts with no header but ends in a built alternate header leads to the header built at its offset |
| FmhScan.AlternateIsNoHeader | Core/Modified_OpenSource/Kernel_amiext_ex-src/11-drivers_mtd_maps_fmhcore.c:105-124 | an accepted alternate header left in the buffer, whatever stands behind it, is no header, so a link past the end of the device finds nothing |
| FmhScan.Scanner.ScanforFMH | Core/Modified_OpenSource/Kernel_amiext_ex-src/11-drivers_mtd_maps_fmhcore.c:85-125 | what is found depends on the flash alone, not on what the shared buffer held before |
| FmhScan.EndsIff | Core/Modified_OpenSource/Kernel_amiext_ex-src/15-drivers_mtd_maps_ractrends.c:120-170 | the scan ends exactly if no visited sector holds a header with less than a sector allocated and a module not before the sector |
| FmhScan.RoomyFinishes | Core/Modified_OpenSource/Kernel_amiext_ex-src/15-drivers_mtd_maps_ractrends.c:120-170 | it ends if every recognised header has room for a sector |
| FmhScan.EmptyHeaderHolds | Core/Modified_OpenSource/Kernel_amiext_ex-src/15-drivers_mtd_maps_ractrends.c:136-140 | a built header without allocated space in the first sector holds the scan forever |
| FmhScan.VisitedIncreasing | Core/Modified_OpenSource/Kernel_amiext_ex-src/15-drivers_mtd_maps_ractrends.c:120-170 | sectors are visited in strictly increasing order |
| FmhScan.Scanner.GetFMHPartitions | Core/Modified_OpenSource/Kernel_amiext_ex-src/15-drivers_mtd_maps_ractrends.c:46-182 | the table becomes the partition "fullpart" over the whole flash followed by exactly the visited file-system modules, in order, with name, version-dependent offset and size; earlier entries stay |
| FmhTable.NormalFound | Core/Modified_OpenSource/Kernel_amiext_ex-src/11-drivers_mtd_maps_fmhcore.c:93-103 | a header at the start of a sector is the one found for it |
| FmhTable.NothingFound | Core/Modified_OpenSource/Kernel_amiext_ex-src/11-drivers_mtd_maps_fmhcore.c:93-125 | a sector with the signature neither at its start nor at its end has no header |
| FmhTable.FoundEntry | Core/Modified_OpenSource/Kernel_amiext_ex-src/15-drivers_mtd_maps_ractrends.c:130-158 | from the bytes of the header found for a sector: an entry exactly if the type is one of the seven, with the name cut at its first zero byte, the size of the module, and its location, or, before version 1.8, that far behind the sector |
| FmhTable.StepExact | Core/Modified_OpenSource/Kernel_amiext_ex-src/15-drivers_mtd_maps_ractrends.c:123-140 | the scan goes on by one sector if there is no header or its module is before the sector, and else past all that is allocated |
| FmhTable.LaidTable | Core/Modified_OpenSource/Kernel_amiext_ex-src/15-drivers_mtd_maps_ractrends.c:120-170 | a flash laid out with the builders, sector by sector without a header, with one at the start or with a link to one, is scanned to the end, and the table holds exactly the file systems on it, in order, with their names, locations and sizes |

## Left out

- BigPhysArea.Area.TakeOut: the free list is a sequence of blocks; which nodes are relinked, and that one of them is reused, is not modelled.
- BigPhysArea.Area.PutBack: the same; the node freed by a merge is not modelled.
- BigPhysArea.Area.AllocBytes: requires that no size or address computation of the request leaves 32 bits.
- BigPhysArea.Area.AllocPages: requires that no address computation of the request leaves 32 bits; negative counts and alignments are not modelled.
- Ashmem.Driver.Pin: memory for a new range is always available; the code ignores that failure in its fourth case and then forgets the pages above the hole.
- Ashmem.Driver.Unpin: memory for a new range is always available; the code returns an error otherwise.
- SpiFlash.Driver.FlashRead: a transfer that fails delivers nothing; what a controller may leave in the buffer then is not modelled.
- SpiFlash.Driver.FlashWrite: a transfer succeeds with all its bytes or fails; the code also allows for a controller that reports bytes left over.
- SpiFlash.Driver.FlashErase: requires that the loop ends, by the exact condition of `SpiErase.LoopEndsIff`; alignment tests with a mask are modelled as remainders, which is the same for erase sizes that are powers of two.
- Ashmem.Driver.PinUnpin: the methods on nodes start from lists without ranges without pages; after an empty unpin `AshmemRuns` has the operations on values only.
- FtgmacRxRing.RxRing.TakeFrame: requires that the last segment of the frame has been filled; by `FtgmacRxRing.FrameEndsIff` the loop does not end otherwise.
- FtgmacRxRing.RxRing.Poll: the same for every frame the poll comes to and does not drop.
- FtgmacRxRing.RxRing.RxPacket: requires the last segment of a frame it does not drop, since the code does not check readiness between segments; pages can always be allocated, since the code ignores that failure.
- FtgmacTxRing.TxRing.HardStartXmit: called only while the queue is awake, as the network stack does; transmission and reclaim are atomic with respect to each other.
- FmhScan.Scanner.GetFMHPartitions: requires that the scan ends and that the result fits the table of 16 partitions, which the code does not check; single image only.
- Nodes of the ashmem lists are handles into a store of node values, and lists are sequences of handles: sharing of a node between two lists is modelled, the link pointers are not. The lists of bigphysarea are sequences of blocks.
- ashmem: mmap beyond giving an area its file, names and protection bits, copies from user space, mutexes.
- SPI flash: unlocking sectors, probing and vendor tables, quad enable bits, the extended address register of one chip, the transfer itself; chips are assumed to honour the commands that enter and leave 4-byte mode, and addresses fit the `int` the code keeps them in.
- FTGMAC100: link changes, registers, statistics, the memory barrier before the ownership bit.
- Partition scan: the two branches for dual images, printing; the flash starts at address 0, as in the only call, is smaller than 4 gigabytes and has sectors of at least 64 bytes.
- Register pokes, clocks, PHY, framebuffer, PCIe, SDHCI and watchdog code: device input and output without a property that ranges over all runs.
- Partial patches of kernel files: most of the code they change is not in the repository.
- The rings of `ast_gmac.c` and of the boot loader: a weaker copy of the FTGMAC100 rings.
