# FLAX: a verified model

FLAX emulates an NVMe computational storage device inside the kernel. This project models the parts
of it that carry data structures and protocols, and proves what they are for. Sizes (channels, LUNs,
pages, ring, page, grain, mirror, block and pool sizes) are symbolic throughout.

**Page-mapping FTL with garbage collection** (`Geometry`, `VictimQueue`, `FtlState`, `FtlProofs`,
`FtlCollection`, `FtlChecks`, `FtlSweep`, `ConvFtl`). `ConvFtl.Ftl` is the FTL as it runs, with its
maps, counters, lists, heap, two write pointers and write credits. Its methods are proved against
functions on a snapshot of the state, and the lemmas about those functions show that between any two
host writes the forward and reverse maps are inverse to each other on the valid pages, all counters are
true counts, and the free list, the full list, the heap and the two open lines partition the lines; that
garbage collection never changes what the host sees; and that no free line is ever asked of an empty
free list, not even while a collection is copying. L is the number of pages of a line and T the number
of lines. The inductive margin is: pages in free lines plus the unwritten pages of both open lines,
minus the credits, is at least 2L + 2 as long as fewer than (T - 4)L logical pages can be mapped, and at
least 2L + 1, which is still enough, with exactly (T - 4)L. No assertion of the modelled functions can
fail.

**Head/tail protocol and rings** (`Frontier`, `OutputRing`, `PageEdges`, `Throttle`, `LoadRing`,
`LoadStuck`). Completions in any order give the least byte that has not arrived; a ring with a mirrored
start behaves like an append-only stream for the writer, for a compute stage that reads it and for the
host that drains it. An input ring that is loaded from scattered disk ranges, with requests landing in
any order while the consumer probes and reads, delivers the concatenation of the ranges when these are
whole pages (all but the last), and loader and consumer never wait for each other as long as the
consumer's probes stay within one request and two pages of the start of its notification grain.

**Compaction and lookup** (`Lsm`, `MergeStream`, `Compaction`, `TableLayout`, `TableBytes`,
`TableSplits`, `PointLookup`, `CompactThenRead`, `Varint`, `Bloom`). Two levels are merged into tables, which
the sizes of blocks and tables determine completely, and looking up any key in the tables gives the first level's entry, else the second's. The merge works on streams of
entries and restart markers, which `TableBytes` reads from the bytes of a level; the lookup works on the
bytes of a table file. `Varint` covers entry headers and `Bloom` the filter block.

**SLM allocator and scheduler** (`Buddy`, `BuddyPool`, `ScatterGather`, `TaskTable`, `WorkList`,
`IoWorker`), **bandwidth model** (`ChannelModel`) and **zones** (`Zones`, after the Zoned Namespace
Command Set Specification, revision 1.1a).

Places where the code does not do what it promises are kept as they are, with the exact condition
under which it does:

- A ring write that starts in the mirrored part and wraps does not mirror its first bytes
  (`OutputRing.MirrorExact`, `OutputRing.ShortWritesMirror`).
- A long host read and the writer of a ring can wait for each other for ever
  (`OutputRing.ProgressExactly`, `OutputRing.StuckRun`).
- The loader of an input ring and a consumer that probes far ahead can wait for each other for ever
  (`Throttle.AnsweredExactly`, `LoadStuck.StuckRun`).
- A channel request is not served when its interval lies beyond the ring or the ring has too little left
  (`ChannelModel.Channel.Request`).
- The host of an empty, finalized output ring is never told the end of the data
  (`OutputRing.Ring.EndOfData`).
- The consumer's readiness probe rounds the head up to a page. A one-page probe is right exactly on page
  boundaries (`Frontier.ProbeExactly`); the others are right exactly on page-aligned heads
  (`Frontier.AheadExactly`), which a load has exactly when all its ranges but the last are whole pages
  (`PageEdges.LoadGateExactly`, `PageEdges.GateRunsAhead`).
- SLM requests of half a page or less can hit the alignment check (`Buddy.PageAligned`,
  `Buddy.SmallRequestsMisalign`).
- Compaction counts the first entry of each level against the unadjusted block size
  (`MergeStream.MergesExactly`) and never adjusts it when one level is empty
  (`MergeStream.EmptyLevelExactly`).
- A point lookup above a table's largest key reads behind the index (`TableLayout.PastIndexExactly`).
- A channel's clock that goes back forgets what was granted (`ChannelModel.ForwardExactly`), and an
  interval can then grant more than its maximum (`ChannelModel.ClockBackRun`).
- A zone with a random write area can fill where the code has an assertion, compiled to nothing, that it
  does not (`Zones.Device.FillsExactly`); the code then does not release the area, so one area less can be
  given from then on (`Zones.Device.WriteToEnd`, `Zones.Device.AreaIsLost`), and with areas of size zero, the configured size, a write or a flush to
  zone 0 at its start divides by zero (`Zones.Device.WriteRandom`, `Zones.Device.FaultReachable`).

`Arithmetic`, `Sets` and `Wrappers` hold what the components share.

Conventions: `memcpy` is a copy of a sequence, `& MASK` on a power of two is a remainder, `|=` on
disjoint bits is a sum, an unset table entry is an absent key or `None`. Shared-memory protocols are
sequences of atomic steps: a waiting loop is a step that can be tried again. Ghost state (page contents,
the stream of a ring, the blocks of a table, stamps of ids) exists for the proofs only.

## Model

| member | source | states |
|---|---|---|
| `Geometry.NextIsSucc` | src/conv_ftl.c:223-297 | one step of the write pointer goes from the k-th page of the striping order (one-shot pages over channels, then LUNs, then the block) to the (k+1)-th, and reports the end of the line exactly after the last page |
| `Geometry.WriteOrderExists` | src/conv_ftl.c:223-297 | starting at page 0 the write pointer visits every (channel, LUN, page) of a line exactly once and ends right after the last one |
| `Geometry.CoordRank` | src/conv_ftl.c:236-262 | every page of a line has a rank below pages-per-line whose coordinates are that page (onto); with RankCoord the order is a bijection |
| `Geometry.RankCoord` | src/conv_ftl.c:236-262 | the page with coordinates of rank k has rank k (one-to-one) |
| `Geometry.PgIdxInRange` | src/conv_ftl.c:53-67 | the flat index of a page is below the number of pages, so the assertion on it cannot fail |
| `Geometry.PgIdxInjective` | src/conv_ftl.c:53-67 | two pages with the same flat index are the same page, so reverse-map entries never collide |
| `Geometry.LinesHoldAllPages` | src/conv_ftl.c:126-157 | the lines together hold each page of the device once |
| `Geometry.FlashpgsTile` | src/conv_ftl.c:795-816 | flash pages tile a block, so the collector's loop over flash pages reaches all of it |
| `VictimQueue.SiftUpRestores` | src/pqueue.c:71-85 | moving an element up from a hole whose subtree is in order restores heap order and the position links, with the same elements and priorities |
| `VictimQueue.SiftDownRestores` | src/pqueue.c:100-114 | the same for moving down |
| `VictimQueue.MaxChildIsLeast` | src/pqueue.c:87-98 | the chosen child is no larger than any child, and no child is missed when none is chosen |
| `VictimQueue.InsertKeeps` | src/pqueue.c:116-141 | inserting leaves a heap with exactly one more element, and there is always room for an element that is not stored |
| `VictimQueue.RepriceKeeps` | src/pqueue.c:143-154 | changing a priority in either direction leaves a heap of the same elements, with only that priority changed |
| `VictimQueue.RemoveKeeps` | src/pqueue.c:156-166 | removing any element leaves a heap of the others; the last slot is never sifted up |
| `VictimQueue.TopIsMinimal` | src/pqueue.c:182-190 | the element on top is minimal |
| `VictimQueue.TopRemoved` | src/pqueue.c:168-180 | popping removes a minimal element and leaves a heap of the others |
| `VictimQueue.PQueue.BubbleUp` | src/pqueue.c:71-85 | the loop on the array computes the upward sift |
| `VictimQueue.PQueue.MaxChildOf` | src/pqueue.c:87-98 | the index of the smaller child, 0 for a leaf |
| `VictimQueue.PQueue.PercolateDown` | src/pqueue.c:100-114 | the loop on the array computes the downward sift |
| `VictimQueue.PQueue.Insert` | src/pqueue.c:116-141 | heap order, element set and positions after an insertion; positions of lines outside the heap are untouched |
| `VictimQueue.PQueue.ChangePriority` | src/pqueue.c:143-154 | heap order and positions after a priority change in either direction |
| `VictimQueue.PQueue.Remove` | src/pqueue.c:156-166 | heap order and element set after a removal |
| `VictimQueue.PQueue.Peek` | src/pqueue.c:182-190 | returns a stored element that is minimal, or nothing exactly when the heap is empty |
| `VictimQueue.PQueue.Pop` | src/pqueue.c:168-180 | takes out a minimal element; of all positions only its own may be off afterwards |
| `FtlProofs.UnmapKeeps` | src/conv_ftl.c:513-558 | invalidating the page of a mapped logical page keeps every invariant: maps inverse to each other, true line and block counts, lists, heap and open lines a partition |
| `FtlProofs.FullIffInFullList` | src/conv_ftl.c:527-557 | a line with a valid page has all pages valid exactly when it is in the full list, so the move from the full list to the heap takes the right line |
| `FtlProofs.CursorIsFree` | src/conv_ftl.c:299-321 | the page under a write pointer is free |
| `FtlProofs.MapKeeps` | src/conv_ftl.c:1068-1085 | programming the page under a write pointer for an unmapped logical page keeps every invariant |
| `FtlProofs.MapView` | src/conv_ftl.c:1068-1085 | it changes what the host sees at that logical page and nowhere else |
| `FtlProofs.ReopenKeeps` | src/conv_ftl.c:223-297 | moving a write pointer on, into a new line if its own is used up, keeps every invariant, puts the pointer on a free page and does not change the number of free pages |
| `FtlCollection.SelectStep` | src/conv_ftl.c:668-690 | taking a line out of the heap starts a collection: it has fewer than a line of valid pages, valid plus invalid pages are the whole line, and all its valid pages are still to copy |
| `FtlCollection.CopyKeeps` | src/conv_ftl.c:622-666 | copying a valid page of the victim keeps every invariant while the old copy is still marked valid |
| `FtlCollection.CopyView` | src/conv_ftl.c:622-666 | copying a page does not change what the host sees |
| `FtlCollection.CopyStep` | src/conv_ftl.c:622-666 | in the middle of a collection that started with at least 2L+1 free pages, one more page can be copied (in particular the free list is not empty when a line is needed), and the collection state is kept with one page more copied |
| `FtlCollection.EraseStep` | src/conv_ftl.c:583-602 | erasing a block of the victim whose valid pages have all been copied keeps the collection state |
| `FtlCollection.FinishStep` | src/conv_ftl.c:764-773 | when all pages of the victim are free, freeing the line restores every invariant, nothing maps into it, the host sees the same data, and exactly the pages are gained that were not valid at the start |
| `FtlCollection.AllMoved` | src/conv_ftl.c:795-816 | every valid page of the victim is copied exactly once |
| `FtlCollection.VictimOrRoom` | src/conv_ftl.c:116-124 | right after a host write with at most two free lines there is a line to collect, unless the device is exactly full and more than three lines of pages are free |
| `FtlCollection.NoVictimPartition` | src/conv_ftl.c:126-157 | with an empty heap the free list, the full list and the two open lines are all lines |
| `FtlCollection.FullLinesValid` | src/conv_ftl.c:263-277 | lines of valid pages hold a whole line of pages each (the counting argument behind VictimOrRoom) |
| `FtlCollection.PlaceStep` | src/conv_ftl.c:1068-1098 | with at least 2L+1 free pages a host write finds its page and, if needed, its free line; it costs one free page and changes the view at that page only |
| `FtlCollection.InitialReady` | src/conv_ftl.c:126-199 | the initial state satisfies every invariant and the free-page margin |
| `FtlCollection.StartCollecting` | src/conv_ftl.c:775-793 | a collection started between two writes has at least one and at most a line of invalid pages to grant as credits, and its counter says how many |
| `FtlCollection.EndCollecting` | src/conv_ftl.c:818-829 | at its end the victim is in the free list, erased, unmapped, and the invariants hold again |
| `FtlChecks.InvalidateChecksHold` | src/conv_ftl.c:513-558 | none of the assertions in mark_page_invalid can fail on a mapped page |
| `FtlChecks.ProgramChecksHold` | src/conv_ftl.c:223-297 | none of the assertions in mark_page_valid and advance_write_pointer can fail on the page under a write pointer |
| `FtlChecks.ProgramThenAdvance` | src/conv_ftl.c:263-277 | after the page is programmed the checks of the advancing pointer hold |
| `FtlChecks.CopyChecksHold` | src/conv_ftl.c:622-666 | nor while the collector is copying |
| `FtlChecks.OverwriteChecksHold` | src/conv_ftl.c:1062-1085 | nor when a host write drops the old page |
| `FtlChecks.WriteStep` | src/conv_ftl.c:1062-1098 | one host write, from any state between writes: possible, one free page fewer, the new data visible at that page and the old view elsewhere |
| `FtlChecks.RefillFromFreeLines` | src/conv_ftl.c:116-124 | with more than two free lines the credits can be granted without a collection |
| `FtlChecks.RefillWithoutVictim` | src/conv_ftl.c:831-838 | when nothing can be collected, the free pages still cover the old grant |
| `FtlSweep.FlashpgSeen` | src/conv_ftl.c:716-762 | cleaning one flash page of one LUN extends the swept part of the victim by it |
| `FtlSweep.BlockErased` | src/conv_ftl.c:583-602 | erasing after the last flash page of a block keeps the sweep on course |
| `FtlSweep.SweepEnds` | src/conv_ftl.c:795-816 | after the last flash page of every channel and LUN all pages of the victim are free |
| `ConvFtl.Ftl.constructor` | src/conv_ftl.c:126-199 | an FTL for any geometry and any number of logical pages up to (lines - 4) lines starts in a valid state: nothing mapped, all pages free, the first two lines open, the others free, and a line of credits |
| `ConvFtl.Ftl.MarkPageInvalid` | src/conv_ftl.c:513-558 | page status, block and line counters, full list and heap after invalidating a page |
| `ConvFtl.Ftl.MarkPageValid` | src/conv_ftl.c:560-581 | page status, block and line counters after a page becomes valid |
| `ConvFtl.Ftl.StepPointer` | src/conv_ftl.c:236-262 | the pointer arithmetic follows the write order and reports the end of the line exactly at its last page |
| `ConvFtl.Ftl.AdvanceWritePointer` | src/conv_ftl.c:223-297 | the pointer moves one page on; a used-up line goes to the full list or the heap and the first free line is opened |
| `ConvFtl.Ftl.GetNextFreeLine` | src/conv_ftl.c:206-221 | takes the first free line; never called on an empty list |
| `ConvFtl.Ftl.GcWritePage` | src/conv_ftl.c:622-666 | one valid page moves to the collector's line and the rest of the victim stays as it was |
| `ConvFtl.Ftl.CleanOneFlashpg` | src/conv_ftl.c:716-762 | exactly the valid pages of the flash page are read and copied |
| `ConvFtl.Ftl.MarkBlockFree` | src/conv_ftl.c:583-602 | all pages of the block are free and its counters zero, nothing else changes |
| `ConvFtl.Ftl.SweepVictim` | src/conv_ftl.c:795-816 | every valid page of the victim is copied and every block erased |
| `ConvFtl.Ftl.SelectVictimLine` | src/conv_ftl.c:668-690 | takes a line with the fewest valid pages, and takes none exactly when the heap is empty or, unless forced, its best line is more than an eighth valid |
| `ConvFtl.Ftl.MarkLineFree` | src/conv_ftl.c:764-773 | the line is at the end of the free list with zero counters |
| `ConvFtl.Ftl.DoGc` | src/conv_ftl.c:775-829 | collects a minimal line if there is one to collect; the host's view is unchanged, the victim is erased, free and unmapped, the credits granted are its invalid pages, and the free pages grow by just as many |
| `ConvFtl.Ftl.DropOldPage` | src/conv_ftl.c:1062-1072 | the page that held the logical page is invalid and unmapped |
| `ConvFtl.Ftl.WritePage` | src/conv_ftl.c:1062-1098 | from any valid state to a valid state (free pages minus credits at least 2L+2, see above), with the new data at the page and the old view elsewhere; it costs a credit, and the last credit brings a collection, if at most two lines are free, and the credits of the last collection |
| `ConvFtl.Ftl.WriteRange` | src/conv_ftl.c:1009-1111 | a range of pages is written in order, or refused without effect when it ends beyond the device |
| `ConvFtl.Ftl.CheckAndRefillWriteCredit` | src/conv_ftl.c:116-124 | does nothing while credits are left; else adds the credits of the last collection, after one more collection if at most two lines are free; keeps the margin of free pages over credits and the host's view |
| `ConvFtl.Ftl.ForegroundGc` | src/conv_ftl.c:831-838 | collects a line exactly when at most two lines are free and there is one to collect; after it the next grant of credits leaves the margin, whether or not a line was collected |
| `ConvFtl.OverlaidIsRange` | src/conv_ftl.c:1062-1098 | writing a range replaces exactly the pages of the range |
| `ConvFtl.OverProvisioningSuffices` | src/conv_ftl.c:393-400 | the configured over-provisioning keeps the logical pages within (lines - 4) lines from 62 lines on |
| `Frontier.ArrivalOrderIrrelevant` | src/csd_slm.c:276-328 | the same completed ranges in any order give the same head |
| `Frontier.AccountsFrontier` | src/csd_slm.c:276-328 | when all stashed ranges start above the head, the head is the least byte not covered by what arrived |
| `Frontier.Absorbed` | src/csd_slm.c:312-325 | taking in a stashed range that the head has reached accounts for exactly the same bytes |
| `Frontier.Region.AdvanceHead` | src/csd_slm.c:276-328 | after any sequence of completed ranges the head is the least byte that none of them covers and never moves back; it fails exactly when a range that reaches neither the head nor a stashed range meets a full stash |
| `Frontier.Region.Absorb` | src/csd_slm.c:312-325 | ends with no stashed range at or below the head, by the number of stashed ranges |
| `Frontier.Region.SetTail` | src/csd_slm.c:342-348 | the consumed frontier is monotone |
| `Frontier.Region.NotifyLoadReady` | src/csd_slm.c:359-363 | completions are recorded until the producer is done and ignored afterwards, with the exact condition of overflow |
| `Frontier.ReadyMeans` | src/csd_slm.c:387-420 | a probe is answered ready exactly when it ends below the head rounded up to a page, a one-page probe being moved down to its page boundary |
| `Frontier.ReadyIsProduced` | src/csd_user_func.c:240-275 | on a page-aligned head, ready means that every probed byte is produced, except for one-page probes inside a page |
| `Frontier.AheadExactly` | src/csd_user_func.c:240-275 | no probe that could be right (one-page probes on page boundaries, all others) runs ahead of the produced bytes, exactly when the head is page-aligned |
| `Frontier.ProbeExactly` | src/csd_slm.c:403-406 | a probe is never answered ready too early on a page-aligned head, exactly when it is not one page long or starts on a page boundary |
| `OutputRing.WrittenHolds` | src/csd_user_func.c:406-458 | after a write each of its bytes is in its ring cell, and in the mirror if the cell is mirrored |
| `OutputRing.WrittenSpares` | src/csd_user_func.c:406-458 | a write leaves every byte within one ring behind its end, and its mirror, untouched |
| `OutputRing.WrittenSparesAhead` | src/csd_user_func.c:406-458 | nor does it touch bytes ahead of it, less than one ring from its start |
| `OutputRing.MirrorExact` | src/csd_user_func.c:425-452 | a write mirrors all it should, whatever was there before, exactly when it does not both start in the mirrored part and wrap |
| `OutputRing.ShortWritesMirror` | src/csd_user_func.c:425-452 | that is so at every offset exactly for writes of at most ring - mirror + 1 bytes |
| `OutputRing.FirstByteUnmirrored` | src/csd_user_func.c:437-452 | otherwise the mirror of the first byte keeps its old content |
| `OutputRing.ReadIsStream` | src/csd_user_func.c:211-215 | a straight read from the cell of o is the stream from o on, as long as it starts at or after the tail, ends before the write offset and overhangs the ring by at most the mirror |
| `OutputRing.WriteKeepsWindow` | src/csd_user_func.c:406-458 | appending keeps the whole unconsumed stream in the ring |
| `OutputRing.BlockedMeansBacklog` | src/csd_user_func.c:392-404 | a waiting writer of s bytes implies more than ring - s - page - grain published unread bytes |
| `OutputRing.ProgressExactly` | src/csd_user_func.c:392-404 | over all states that a ring can come to, a writer of size bytes and a host that asks for len bytes never both wait, exactly when the pages of the longest write from a grain boundary and the read fit the ring |
| `OutputRing.StuckState` | src/csd_slm.c:602-620 | otherwise there is a state, among those a ring can come to, in which the writer waits for space and the host for bytes |
| `OutputRing.Reach` | src/csd_user_func.c:526-537 | the states counted there are just those that a ring comes to: every one is the end of a run of one-byte appends and reads, and Ring.Valid keeps every run within them |
| `OutputRing.StuckRun` | src/csd_user_func.c:392-404 | in such a state neither the writer nor the host goes on, and nothing changes |
| `OutputRing.Ring.SetData` | src/csd_user_func.c:406-458 | waits exactly when there is no space, else appends any data to the stream and keeps consumed = tail <= head <= write offset <= tail + ring; the mirror stays right unless the write starts in the mirrored part and wraps |
| `OutputRing.Ring.SetDataFromCircular` | src/csd_user_func.c:460-515 | appends the bytes of another ring's stream, if the straight read of them does not overhang what is mirrored |
| `OutputRing.Ring.NotifyRange` | src/csd_user_func.c:526-537 | appends unspecified bytes |
| `OutputRing.Ring.NotifyProduced` | src/csd_slm.c:370-381 | the published head is the write offset rounded down to the grain, and frozen once the producer is done |
| `OutputRing.Ring.Finalize` | src/csd_user_func.c:547-582 | publishes everything and the total |
| `OutputRing.Ring.CheckReady` | src/csd_slm.c:602-620 | which host reads are served, and how they are clamped at the end |
| `OutputRing.Ring.HostRead` | src/csd_slm.c:706-718 | a served read advances the consumed frontier and returns the next part of the stream, unless it overhangs what is mirrored |
| `OutputRing.Ring.Drain` | src/csd_slm.c:602-620 | after finalize a host reading in chunks that divide the ring, or of at most one byte more than the mirror from anywhere, gets exactly the rest of the stream |
| `OutputRing.Ring.EndOfData` | src/csd_slm.c:602-620 | with nothing left the host is told the end of the data exactly when the output is not empty; for an empty output it waits for ever |
| `Buddy.LiveDisjoint` | src/buddy.c:35-84 | blocks in use overlap neither each other nor a free leaf |
| `Buddy.AllocCorrect` | src/buddy.c:35-84 | allocation succeeds exactly when some free leaf is large enough, fails without a trace, and else adds one block of at least the size and less than twice of it plus one, cut out of a free leaf |
| `Buddy.AllocDisjoint` | src/buddy.c:35-84 | the new block overlaps no block in use |
| `Buddy.AllocTidy` | src/buddy.c:35-84 | allocation never leaves two free buddies |
| `Buddy.ReleaseCorrect` | src/buddy.c:93-131 | release removes the block that starts at the index, fails without a trace exactly when there is none, and never leaves two free buddies |
| `Buddy.ReleaseUndoesAlloc` | src/buddy.c:93-131 | releasing a block just allocated restores the identical tree |
| `Buddy.SizeAtCorrect` | src/buddy.c:139-166 | the lookup answers the distance to the end of the one block in use that holds the index, and nothing when there is none |
| `Buddy.Aligned` | src/buddy.c:35-84 | in a power-of-two pool every block is a power of two long and aligned to its own length |
| `Buddy.PageAligned` | src/csd_slm.c:53-64 | a request of more than half a page is page-aligned, so the check after allocation cannot fail |
| `Buddy.SmallRequestsMisalign` | src/csd_slm.c:53-64 | any smaller request fails that check on the second call already |
| `BuddyPool.Node.Alloc` | src/buddy.c:35-84 | the recursion over nodes changed in place computes the tree function |
| `BuddyPool.Node.Release` | src/buddy.c:93-131 | the same for release with merging |
| `BuddyPool.Node.SizeOf` | src/buddy.c:139-166 | the same for the lookup |
| `BuddyPool.Pool.Allocate` | src/csd_slm.c:48-69 | over every run: a new disjoint block, or failure exactly for want of a free leaf; page-aligned in a power-of-two pool for requests above half a page |
| `BuddyPool.Pool.Deallocate` | src/csd_slm.c:90-106 | over every run: the block at the index goes and no other, or failure exactly when there is none |
| `Lsm.CompareIsOrder` | src/csd_user_func.c:3207-3212 | the comparison of the searches is the byte-wise order of keys, and equality |
| `Lsm.MergeSorted` | src/csd_user_func.c:1874-2144 | the merge of two strictly increasing runs is strictly increasing |
| `Lsm.MergeFind` | src/csd_user_func.c:1934-1995 | a key looked up in the merge has its entry of the first level, else of the second, else none |
| `MergeStream.StepKeeps` | src/csd_user_func.c:1942-1957 | stepping over an entry, and over the marker when the byte count says so, loses no entry and stays in place |
| `MergeStream.DrainAll` | src/csd_user_func.c:2174-2225 | the remainder loop copies what is left of one input |
| `MergeStream.RunIsMerge` | src/csd_user_func.c:1874-2225 | from any point of two inputs in legal blocks the program emits exactly the merge of what is left |
| `MergeStream.MergesLegal` | src/csd_user_func.c:1874-2225 | two non-empty levels in legal blocks, of one entry size and key length, come out as their merge |
| `MergeStream.RunOnly` | src/csd_user_func.c:1874-2225 | whatever the blocks and limits, the program misreads its inputs or emits exactly their merge: no entry is lost or invented |
| `MergeStream.MergesExactly` | src/csd_user_func.c:2022-2026 | this holds for all such levels exactly when it is not the case that entries are below 1024 bytes and take at least half a block but less than a block |
| `MergeStream.MisreadExample` | src/csd_user_func.c:2193-2196 | otherwise three entries are enough to misread the second level |
| `MergeStream.EmptyLevelExactly` | src/csd_user_func.c:2145-2225 | with one level empty the limit is never lowered; a legal level of small entries is then copied exactly when it has at most one block or its entries fill whole blocks |
| `Compaction.IndexAppend` | src/csd_user_func.c:970-999 | the handle written for a block extends the tiling of the data region |
| `Compaction.StoredIsJoined` | src/csd_user_func.c:2021-2142 | the entries found in the data regions of the finished tables, in order, are those of their blocks |
| `Compaction.Packer.Emit` | src/csd_user_func.c:2021-2060 | after any number of entries the written data, the index, the offsets and the finished tables are those that the entries demand, blocks are closed by the entry that fills them, tables end with the entry that brings them to the threshold, and tables are legal inputs again |
| `Compaction.Packer.CloseBlock` | src/csd_user_func.c:2027-2056 | the index gets the block's last key, its offset and its size, and the block its marker |
| `Compaction.Packer.EndTable` | src/csd_user_func.c:2061-2142 | an open block is closed and the table has the first and last key of its entries |
| `Compaction.Packer.Finish` | src/csd_user_func.c:2366-2432 | the tables together hold all entries emitted, in order; all but the last have reached the threshold, none before its last entry |
| `Compaction.MergeBoth` | src/csd_user_func.c:1874-2144 | the loop over both inputs emits what the reader function says, with the first level winning ties |
| `Compaction.DrainOne` | src/csd_user_func.c:2174-2360 | so does the loop over the remainder |
| `Compaction.Compact` | src/csd_user_func.c:1737-2440 | compaction succeeds exactly when the inputs can be read, and the tables then hold just what is read from them, cut where blocks and tables reach their sizes |
| `TableSplits.BlockEntries` | src/csd_user_func.c:2025-2056 | a block takes just as many entries as bring it to the limit, and is closed exactly then |
| `TableSplits.TableCounts` | src/csd_user_func.c:2056-2061 | the offsets of a table before and after its last entry, from the number of its entries alone |
| `TableSplits.PerTableUnique` | src/csd_user_func.c:2060-2061 | there is only one least number of entries that brings a table to the threshold |
| `TableSplits.TablesEven` | src/csd_user_func.c:2060-2142 | every table but the last has the least number of entries that brings it to the threshold, the last one no more |
| `TableSplits.PackedOnce` | src/csd_user_func.c:2021-2142 | there is only one way to cut entries into blocks and tables by these rules |
| `TableSplits.TablesOnce` | src/csd_user_func.c:2021-2142 | so the same entries, sizes and threshold give the same tables |
| `PointLookup.HandleLeadsToBlock` | src/csd_user_func.c:970-999 | every handle of a table leads to the bytes of its block's entries and carries the block's last key |
| `TableLayout.HandlesTile` | src/csd_user_func.c:970-999 | the handles tile the data region without gap or overlap, trailers included |
| `PointLookup.SearchBlockBinary` | src/csd_user_func.c:2944-3017 | binary search in the bytes of a block, with the entry size read from its first header, finds exactly what plain search of its entries finds, for every target |
| `PointLookup.SearchBlockLinear` | src/csd_user_func.c:3019-3071 | so does the linear search, entry by entry, that stops early |
| `PointLookup.SearchIndex` | src/csd_user_func.c:3190-3222 | the search through restart offsets and index bytes returns the first block whose last key is not below the target |
| `TableLayout.OnlyInBlock` | src/csd_user_func.c:3190-3222 | the target can only be in that block |
| `TableLayout.PastIndexExactly` | src/csd_user_func.c:3190-3226 | the index search ends behind the last handle exactly for targets above the largest key |
| `PointLookup.Get` | src/csd_user_func.c:3190-3263 | a lookup in the bytes of a table below 4 GB returns the table's entry for the target, or nothing when there is none; it runs past the index exactly for targets above the largest key |
| `CompactThenRead.GetFromTables` | src/csd_user_func.c:3190-3263 | the files of tables over a merged stream answer every key as the stream does |
| `CompactThenRead.CompactThenGet` | src/csd_user_func.c:1737-2440 | for the bytes of any two sorted levels of one key length and entry size: if they can be read, looking any key up in the bytes of the compacted tables, each below 4 GB, gives the first level's entry, else the second's, else nothing |
| `CompactThenRead.LegalLevels` | src/csd_user_func.c:1874-2225 | levels in legal blocks can be read: two that are not empty if sizes agree, one alone if the unlowered limit fits |
| `TableBytes.FixedRoundTrip` | src/user_func_rocksdb.h:79-106 | numbers of fixed width read back as written |
| `TableBytes.ParseEntry` | src/user_func_rocksdb.h:108-131 | the bytes of an entry read back as that entry, and are never taken for a marker |
| `TableBytes.ParseAt` | src/csd_user_func.c:1902-1932 | where an item starts in a data region, marker test and header decoding of its bytes give back that item |
| `TableBytes.ParseNext` | src/csd_user_func.c:1874-1932 | so a level is read item by item from its bytes |
| `TableBytes.DataBytesSize` | src/csd_user_func.c:1934-1995 | the offsets counted by the programs are byte offsets |
| `TableBytes.IndexRoundTrip` | src/csd_user_func.c:970-999 | an index entry reads back as its key, offset and size |
| `TableBytes.ReadLevel` | src/csd_user_func.c:1874-1932 | reading a level's bytes item by item gives back the level |
| `PointLookup.HandleIsRead` | src/csd_user_func.c:3196-3206 | in a file below 4 GB, index entry i is read through the i-th restart offset, wherever index and restart array lie |
| `PointLookup.FileHoldsTable` | src/csd_user_func.c:836-850 | a file of data, filter, index, restart array and anything behind it holds its table |
| `PointLookup.HandleFits` | src/csd_user_func.c:976-992 | in a table below 4 GB every handle fits its encoding |
| `Varint.EncodeVarint64` | src/user_func_rocksdb.h:133-144 | the loop writes the seven-bit groups of the value |
| `Varint.EncodeVarint32` | src/user_func_rocksdb.h:153-181 | the unrolled writer writes the same bytes |
| `Varint.RoundTrip` | src/user_func_rocksdb.h:34-77 | decoding undoes encoding, whatever follows, and takes just the encoded bytes |
| `Varint.WidthsFit` | src/user_func_rocksdb.h:34-77 | five bytes suffice for 32 bits and ten for 64 |
| `Varint.GetVarint` | src/user_func_rocksdb.h:34-77 | the reading loop computes the decoding, cut to the width |
| `Varint.FastPathAgrees` | src/user_func_rocksdb.h:108-131 | the fast path of the entry header agrees with three varints |
| `Varint.EntryRoundTrip` | src/user_func_rocksdb.h:108-131 | an encoded entry decodes to its own lengths, with the key right behind the header |
| `Varint.CutShort` | src/user_func_rocksdb.h:108-131 | an entry whose key and value are not all within the limit is not decoded |
| `Bloom.FastRange32` | src/user_func_bloom.h:13-17 | the reduced hash is below the range |
| `Bloom.RangeReached` | src/user_func_bloom.h:13-28 | the reduced hash grows with the hash and takes every value, so every cache line is used |
| `Bloom.LineOf` | src/user_func_bloom.h:21-28 | the cache line of a hash lies inside the filter |
| `Bloom.HitsInside` | src/user_func_bloom.h:31-40 | no hash probes a metadata bit |
| `Bloom.StepsApart` | src/user_func_bloom.h:31-40 | different upper halves stay different over all probe steps, since the multiplier can be inverted |
| `Bloom.AddHashPrepared` | src/user_func_bloom.h:31-40 | sets exactly the probed bits of the line |
| `Bloom.AddAllEntries` | src/user_func_bloom.h:140-174 | the eight-deep pipeline sets exactly the bits of all hashes, as adding them one by one would |
| `Bloom.CalculateSpace` | src/user_func_bloom.h:83-95 | whole cache lines plus metadata, at least one line when there is an entry, with at least the bits asked for and less than a line more, up to the largest filter |
| `Bloom.GetNumProbes` | src/user_func_bloom.h:97-138 | between 1 and 24 probes, so the count survives its five bits of metadata |
| `Bloom.ProbesByThreshold` | src/user_func_bloom.h:97-138 | from which millibits per key on there are more than p probes, for every p; from 25502 to 26000 the count drops back to 11 |
| `Bloom.Build` | src/csd_user_func.c:803-822 | a built filter has exactly the bits of its keys, the size for their number and the probe count for that size |
| `Bloom.MayMatch` | src/user_func_bloom.h:44-81 | answers yes exactly when all probed bits are set or the probe count is impossible |
| `Bloom.NoFalseNegative` | src/user_func_bloom.h:60-81 | every bit of an inserted key is set, and the metadata bits before them stay clear |
| `Bloom.BuildThenAsk` | src/user_func_bloom.h:60-81 | a built filter answers yes for every key that went in |
| `ScatterGather.Locate` | src/csd_dispatcher.c:131-138 | the scan finds the range that holds the offset, and runs off the end exactly past the last one |
| `ScatterGather.CalculateLba` | src/csd_dispatcher.c:120-142 | the sector of the logical offset |
| `ScatterGather.CalculateIoSize` | src/csd_dispatcher.c:144-182 | the size rounded up to sectors and cut at the end of the range, zero past the last range |
| `ScatterGather.CalculateLocalOffset` | src/csd_dispatcher.c:185-198 | the byte within the sector |
| `ScatterGather.MakeIo` | src/csd_dispatcher.c:1907-1958 | sector times 512 plus local offset is the disk byte of the logical offset; the request stays in one range and does not cross the ring end |
| `ScatterGather.Issue` | src/csd_dispatcher.c:1907-2043 | the requests tile what they cover, each as long as sectors, range and ring allow, and stop short of the target only at the end of the ranges or for want of request slots |
| `ScatterGather.PayloadIsContent` | src/csd_dispatcher.c:1907-2043 | a request delivers the bytes of the concatenated ranges at its own offset |
| `ScatterGather.LoadIsContent` | src/csd_dispatcher.c:1907-2043 | tiled requests together reproduce a stretch of the concatenated ranges |
| `PageEdges.PagedMeans` | src/csd_dispatcher.c:144-182 | every range starts on a page boundary exactly when all ranges but the last are whole pages |
| `PageEdges.IssuedEdges` | src/csd_dispatcher.c:1907-2043 | then all requests of a round end on a page boundary or with the data |
| `PageEdges.HeadIsEdge` | src/csd_slm.c:276-328 | so does the head, whatever has landed in whatever order |
| `PageEdges.ReadyOnEdge` | src/csd_user_func.c:240-275 | on such a head a probe answered ready lies below the head as far as there are data |
| `PageEdges.LoadGateExactly` | src/csd_user_func.c:240-275 | landing a load request by request, the probe never runs ahead, exactly when all ranges but the last are whole pages |
| `PageEdges.GateRunsAhead` | src/csd_user_func.c:240-275 | otherwise, at the range that ends inside a page, it admits a byte that has not landed |
| `LoadRing.TilesOrdered` | src/csd_dispatcher.c:1907-2043 | requests of one round lie one behind the other |
| `LoadRing.LandingKeeps` | src/csd_dispatcher.c:1586-1602 | a request that lands, in whatever order, overwrites no byte that has arrived and is not consumed, as long as everything requested lies within one ring of the consumer |
| `LoadRing.ThrottleBound` | src/csd_dispatcher.c:1770-1795 | the page-wise throttle keeps the loader less than two pages and a request ahead of the consumer when it issues the next one |
| `LoadRing.ReadLoaded` | src/csd_user_func.c:211-215 | a straight read below the head is the content there |
| `LoadRing.Loader.RequestRound` | src/csd_dispatcher.c:1767-2050 | just as many rounds of requests as are granted, unless all is requested before: a few before the consumer has started, one when it has waited and is close behind, none otherwise; the loader never requests more than a ring ahead of the consumer |
| `LoadRing.Loader.IssueOne` | src/csd_dispatcher.c:1812-2043 | each round adds requests that tile what they cover, each as long as the cuts leave of a page, a full request or the rest, until that is covered, the data end or no slot is left; at least one byte and at most a full request rounded up to a sector |
| `LoadRing.Loader.Land` | src/csd_dispatcher.c:1560-1687 | over every run and every order of landing: the head is the least byte that has not landed, every landed byte that is not consumed is in the ring and mirrored, and the stash overflows exactly when it is full and the request starts behind the head and touches nothing in it |
| `LoadRing.Loader.Read` | src/csd_user_func.c:240-275 | the consumer's probe and read: a probe is answered by the head or because everything has landed; what is read is then the concatenation of the source ranges, if everything has landed, or comes in whole pages with one-page probes on page boundaries, or ends below the head |
| `LoadRing.Loader.NeverStuck` | src/csd_user_func.c:256-270 | a consumer that has published its offset only up to a grain waits on any probe ahead of it with nothing in flight: the next round of the loader requests more, if the probe lies within one request and two pages of the start of the grain |
| `LoadRing.Loader.AllLanded` | src/csd_dispatcher.c:1670-1677 | when the landed bytes reach the total, nothing is in flight and the head is at the end |
| `LoadRing.Loader.NotifyProgress` | src/csd_user_func.c:305-357 | the consumer publishes its offset when it has come to another grain, and always has published some offset of its present grain |
| `Throttle.WaitingIsClose` | src/csd_dispatcher.c:1776-1790 | pages between the published offset and the head when a probe is not ready |
| `Throttle.AnsweredExactly` | src/csd_dispatcher.c:1776-1790 | over all heads, published offsets and offsets of the consumer: whenever the consumer waits, the throttle lets the loader go on, exactly when the consumer looks no further than one request and two pages past the start of its grain |
| `LoadStuck.StuckRun` | src/csd_dispatcher.c:1767-2050 | for every longer look-ahead or probe, a run of three requests over two ranges after which the consumer waits, nothing is in flight, data are left, and the loader requests nothing more |
| `TaskTable.SameId` | src/csd_dispatcher.h:46-54 | within a cycle of the generation counter a slot never gets the same id twice; a whole cycle apart it does |
| `TaskTable.Table.Allocate` | src/csd_dispatcher.c:484-514 | the new id is not the sentinel and is carried by no request in flight, if none is as old as a cycle of the counter |
| `TaskTable.Table.IssueIo` | src/csd_dispatcher.c:1931-1991 | requested minus done grows with the bytes in flight under its present id |
| `TaskTable.Table.Complete` | src/csd_dispatcher.c:1560-1687 | a late completion from a recycled slot changes no task, no task is credited with more than it asked for (so the BUG check is unreachable), and what is requested and not done is exactly in flight or lost |
| `TaskTable.Table.Retire` | src/csd_dispatcher.c:2383-2401 | requests of a finished task become orphans |
| `WorkList.InsertKeepsOrder` | src/io.c:430-461 | a request put where the backward scan stops keeps the list in order of max(target, clock) |
| `WorkList.ClockKeepsOrder` | src/io.c:990-996 | time passing keeps the order |
| `WorkList.ThreadsInsert` | src/io.c:446-460 | the relinking leaves a doubly linked list with the entry at its place |
| `WorkList.CutThreads` | src/io.c:592-606 | moving a prefix to the end of the free list leaves both chains linked and still a partition of the table |
| `WorkList.SplitsMoveIn` | src/io.c:386-403 | taking the first free entry keeps the two chains a partition of the table |
| `IoWorker.Worker.constructor` | src/io.c:1124-1148 | all entries start in the free list |
| `IoWorker.Worker.FindPlace` | src/io.c:434-444 | the place found has only later requests behind it and an earlier or already due one before it |
| `IoWorker.Worker.LinkIn` | src/io.c:430-461 | the links after insertion at head, tail, in between or into an empty list |
| `IoWorker.Worker.Enqueue` | src/io.c:386-461 | refused exactly when one free entry is left; else the first free entry is inserted at its place, with nothing carried out or answered for it; also the write-back enqueue (src/io.c:473-540), whose data count as moved |
| `IoWorker.Worker.Reclaim` | src/io.c:559-608 | exactly the longest prefix of finished requests that are due goes back to the free list, in order; each was answered, and carried out before |
| `IoWorker.ToldNew` | src/io.c:416-424 | a reused entry stands for a new request, of which the log knows nothing |
| `IoWorker.ToldVisited` | src/io.c:998-1083 | a visit moves the data of a request that were not moved and answers it if it is due and was not; the flags keep telling what was done |
| `IoWorker.Worker.Visit` | src/io.c:990-1086 | no data are moved twice, no request is answered twice, before its time, or before its data are moved |
| `IoWorker.Worker.Scan` | src/io.c:983-1086 | after a scan all data are moved, and exactly the requests that are due are answered |
| `IoWorker.Worker.Turn` | src/io.c:559-608 | a scan and a reclaim give back exactly the requests that are due, in any order of arrival |
| `IoWorker.Worker.Advance` | src/io.c:990-996 | the clock may advance at any time |
| `ChannelModel.AdvanceKeeps` | src/channel_model.c:59-74 | moving the present on and refilling passed cells keeps every interval capped, also after gaps that wrap the counter, and exact otherwise |
| `ChannelModel.ForwardExactly` | src/channel_model.c:53-74 | moving the present keeps every state capped exactly when the clock does not go back |
| `ChannelModel.BackwardsExample` | src/channel_model.c:58-74 | when it goes back, a full interval within the ring offers its full credit again |
| `ChannelModel.TakeKeeps` | src/channel_model.c:98-101 | taking credits from a cell keeps every interval capped and the ring exact |
| `ChannelModel.Channel.Advance` | src/channel_model.c:59-74 | the ring then starts at the interval of the new time |
| `ChannelModel.Channel.Consume` | src/channel_model.c:92-124 | each interval from the requested one on gives all it has, and the last one what is then still wanted; nothing else is taken; the ring is exhausted exactly when its intervals from there on had less left together |
| `ChannelModel.Channel.Request` | src/channel_model.c:45-132 | a request is served exactly when its interval is within the ring and the intervals from there on have its units left; it takes them interval by interval and completes its bare transfer time after it came, plus one interval for each it needed beyond those its units fill. While the effective clock has not gone back by an interval, no interval has granted more than its maximum, and while no gap has wrapped the counter, what is left is what the maximum and the grants so far leave |
| `ChannelModel.LateBehindFull` | src/channel_model.c:126-130 | a request for less than an interval that its first interval cannot serve completes at least one interval later than its bare transfer |
| `ChannelModel.IdleIsNotLate` | src/channel_model.c:126-130 | on an idle channel no request completes later than its bare transfer |
| `ChannelModel.OfferMoves` | src/channel_model.c:59-74 | what the ring offers after the present has moved is what the cells of the later intervals held, and full credit for new ones |
| `ChannelModel.OfferIsRoom` | src/channel_model.c:92-105 | an exact ring offers just what has not been granted |
| `ChannelModel.ClockBackRun` | src/channel_model.c:53-74 | three requests, the second from an earlier interval, after which an interval has granted twice its maximum |
| `Zones.CountUpdate` | src/zns_ftl.h:63-96 | a state change moves the numbers of open zones, active zones and areas held by its own contribution only |
| `Zones.Device.CloseZone` | src/zns_mgmt_send.c:19-41 | open zones become closed, others are refused; counters stay true |
| `Zones.Device.FinishZone` | src/zns_mgmt_send.c:43-76 | any working zone becomes full and gives back what it held |
| `Zones.Device.OpenZone` | src/zns_mgmt_send.c:78-118 | succeeds exactly when zones, active zones and random write areas are left, takes just what the zone needs, and leaves everything unchanged when not, naming the first resource that is missing |
| `Zones.Device.ResetZone` | src/zns_mgmt_send.c:120-167 | any working zone becomes empty with its write pointer at its start and no random write area |
| `Zones.Device.OfflineZone` | src/zns_mgmt_send.c:169-186 | only failed zones go offline |
| `Zones.Device.FlushExplicit` | src/zns_mgmt_send.c:188-237 | succeeds exactly for a working zone and whole granules within its random write area; the write pointer moves behind the flushed block; at the end of the zone the zone is full and its resources are released; with areas of size zero, zone 0 at its start divides by zero |
| `Zones.Device.IncreaseWritePtr` | src/zns_read_write.c:32-54 | the pointer stays in the zone, which is full exactly at its end; its random write area is then not released |
| `Zones.Device.FillsExactly` | src/zns_read_write.c:44-48 | nothing is flushed exactly for a write within one area of the pointer that does not end the zone; a zone with a random write area fills, where the code has ASSERT(0), an empty macro, exactly for a write that ends the zone within one area of the pointer |
| `Zones.Device.FlushedLeast` | src/zns_read_write.c:283-288 | beyond its area a write flushes the least number of granules that leaves its end within one area of the pointer |
| `Zones.Device.WriteToEnd` | src/zns_read_write.c:208-315 | writing a zone with a random write area to its end always ends in the fill that loses the area |
| `Zones.Device.AreaIsLost` | src/zns_read_write.c:42-50 | opening with an area, writing to the end and resetting brings the zones back as they were, with one area less to give |
| `Zones.Device.FaultReachable` | src/zns_read_write.c:225-299 | with areas of size zero, as shipped, opening zone 0 with a random write area and writing to it divides by zero |
| `Zones.Device.WriteSequential` | src/zns_read_write.c:77-170 | succeeds exactly for whole write units from the write pointer on, within the zone, with the resources to open it; then the pointer moves by its length and the zone is full at its end and open before; a refused write changes nothing and names the first check that fails |
| `Zones.Device.WriteRandom` | src/zns_read_write.c:208-315 | succeeds exactly within two areas of the pointer, within the zone, with the resource to open it; the pointer then moves by whole flush granules or to the end, or stays where it was when there is something to flush and no buffer; the exact states that divide by zero, and the exact writes that lose an area |
| `Zones.Device.Write` | src/zns_read_write.c:359-380 | the exact writes that succeed and what they make of the zone, by zone kind; an empty zone never takes the random-write path, which would not count it as active |
| `Zones.Device.SendAll` | src/zns_mgmt_send.c:239-293 | what every command sent to all zones makes of each of them: every zone by its own state, but that opening goes in order while resources last; over every run the counters equal the numbers of open zones, of open or closed zones, and of areas held and lost, and no release underflows |
| `Zones.Device.Send` | src/zns_mgmt_send.c:239-268 | which zones each of the six commands succeeds on, and what it makes of them |
| `Zones.Device.FirstCome` | src/zns_mgmt_send.c:277-283 | when a zone found no room to open, no zone of its state behind it opens |
| `Zones.Device.ResetAll` | src/zns_mgmt_send.c:277-283 | after resetting all zones none is open or active, and only the lost areas are in use |
| `Zones.Device.ReleaseOpen` | src/zns_ftl.h:83-88 | every caller holds the resource, so the counter never underflows |

## Left out

- ConvFtl.Ftl.constructor: for at most (lines - 4) lines of logical pages, the bound under which free-line safety holds; the code takes any over-provisioning (`ConvFtl.OverProvisioningSuffices` says when the configured one is enough).
- ConvFtl.Ftl.WriteRange: for one FTL partition; the split of a request over `nr_parts` partitions by remainder is not modelled, and a range that ends between the logical size and the physical size is excluded, since the namespace size keeps the host out of it.
- ConvFtl.Ftl.WritePage: maps, page status and block counters are maps that are reassigned, not arrays of structures; NAND and PCIe timing, the write buffer and early completion are not modelled.
- ConvFtl.Ftl.DoGc: `clean_one_block` is unused by the code and not modelled; one plane per LUN, as the code asserts.
- Frontier.Region.AdvanceHead: the stash is a sequence bounded by its capacity; a full stash is a reported failure where the code halts.
- OutputRing.Ring.HostRead: the host is assumed to read in order from the cell of its consumed offset; the bytes behind the buffer, which a long read reaches, are arbitrary.
- Compaction.Compact: entries and markers stand for the bytes of a level, which `CompactThenRead.CompactThenGet` adds; entries have one size; an input that the code would misread ends the model with failure; statistics, sequence-number ranges, checksums (the trailers are zero), the filter, properties and footer blocks of a table and the padding up to the table size are not modelled.
- PointLookup.Get: for tables below 4 GB, as restart offsets of 32 bits demand; what a search for a target above the largest key reads behind the index is not modelled, nor are demand loading and the choice among levels.
- CompactThenRead.CompactThenGet: levels are sorted and of one key length and entry size, and are taken apart item by item before they are merged, where the code does both in one pass; choosing the table by its key range is the host's part.
- Bloom.Build: the XXPH3 hash is an arbitrary pair of 32-bit halves per key; bytes are bits; the marker bytes of the metadata are not modelled beyond the probe count.
- TaskTable.Table.Allocate: the free list of slots is an arbitrary free slot, and the caller's initial offsets are a parameter; ids are unique only while no request in flight is as old as a cycle of 2^25 allocations.
- ScatterGather.Issue: source ranges are positive, as the code needs at offset 0; the latency model's refusal of a request and demand reads are not modelled.
- ChannelModel.Channel.Request: lengths are in transfer units of 128 bytes, each of which costs one credit, as configured, and commands cost none; credits per interval are below 256, the width of a cell, and 32-bit products do not overflow.
- Zones.Device.WriteRandom: the random-write buffer is reduced to whether it has room; that a closed zone finds its buffer area free when it is reopened, which the code insists on (src/zns_read_write.c:268), is not modelled; sums of addresses do not overflow 64 bits, but a difference below zero wraps around.
- Zones.Device.Write: lengths and alignment of the NAND programming that follows are timing only.
- IoWorker.Worker.Scan: the clock is read once per scan and does not go back; what moving data and posting a completion do to host memory and queues is reduced to a log of which requests they were done for.
- IoWorker.Worker.Enqueue: commands, completion queues and the choice of a worker are not modelled.
- Buddy.AllocCorrect: requests are positive; for a request of 0 the recursion of the code does not end.
- LoadRing.Loader.NeverStuck: the consumer waits at some other place than the start of the ring, or has waited before, since only then does the code let the loader go on.
- LoadRing.Loader.Read: a read starts at or behind the consumed frontier and does not overhang the mirror.
- LoadRing.Loader.Land: the data copy, the mirror copy and the publication are one step; the ring is assumed to hold two requests, two pages and a sector, and the requests granted at the start.
- Demand and extent mode of the SLM, linear output regions and the loader's quotas.
- The doubly linked task lists of the dispatcher, which would repeat the work list with easier claims.
- The key-value FTL, the append-only and bitmap allocators, the simple FTL, bit packing, PCI, admin, DMA and host library code.
- `_buddy_act_size`, which below a split answers the block size instead of the requested size.
- Integer widths other than those named above: offsets, counters and times are unbounded.
