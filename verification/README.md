# A verified model of DAQIRI

DAQIRI moves packets between NICs, GPUs, files and object stores. This project models the parts of
it whose correctness is easiest to get wrong and proves what they promise, with Dafny 4.11. Verify
it with `dafny verify dfyconfig.toml`.

| files | part of the system |
|---|---|
| `Words`, `RingSystem`, `RingProof`, `RingTheorems`, `RingSolo`, `RingLap` | the lock-free ring as a transition system: any number of threads, one atomic or slot access per step |
| `Ring` | the same ring as an object with 32-bit cursors, refining a bounded FIFO |
| `Pool`, `PoolSystem`, `PoolSolo` | the object pool, sequential and concurrent |
| `Counting`, `S3Window`, `S3System`, `S3Told`, `S3Progress` | the S3 upload window, as an object and over all interleavings |
| `GdsLedger`, `GdsHandle`, `GdsRun` | completion accounting of batched file writes, and whole writes |
| `Buffers`, `SegmentWalk`, `Pcap` | where packet bytes go: raw file, S3 object, capture file |
| `MemoryPlan`, `MemoryRegions`, `MemoryPools` | the two-pass memory planner and the buffer pools filled from it |
| `RoundRobin` | the two-level receive scheduler |
| `BitField`, `TxPatch`, `TxLimits`, `TxWorker`, `TxBatch` | incremental packet patching in the reorder/quantize bench |
| `Checksum`, `PacketHeaders` | the two Internet checksum programs, and the packets made with them |
| `RdmaWindow` | the event-gated receive window of the RDMA bench |
| `Validator`, `ValidatorUses` | the configuration checks on flows, reorder and shared TX |
| `Endpoint` | endpoint addresses: grammar, parser, printer |

Objects the source updates in place are classes whose methods are proved against functions of their
old state; the theorems are about those functions, or about all runs of a transition system.

## Hypotheses

- Ring: atomic accesses are sequentially consistent; the requested count is at most 2^31; fewer than
  2^32 positions are reserved on a side between a thread's head snapshot and its compare-exchange
  (2^32 - size for `RingTheorems.HonestFailure` and for the pool). It is needed: see
  `RingLap.LappedReserveOverfills`.
- Pool: callers put back only blocks they hold, each once.
- File writes: the driver reports a batch's events with that batch's cookies.
- Memory: the system allocators return memory that overlaps nothing else in use; a region's name is
  the key it is stored under, as `include/daqiri/common.h:1656` stores it, so that the results keyed
  by name are those of the regions keyed by map entry.
- Scheduler fairness: interface k has port id k.
- Transmit worker: the buffers of one burst are different device buffers of packet size; the layout
  has passed the bench's checks and the library's reader (`TxPatch.Reaches`), as `main` makes sure.
- Bench packets: the configured header size is at least the 42 bytes of the headers.
- RDMA window: the GPU stream finishes its work in order, and waiting for an event returns once it is done.

## Where code and expectation differ

- `parse_reorder_plan` shifts `1U` by the field widths. Both readers admit a sequence width of 32, for
  which that is undefined, so `TxPatch.Derived` then leaves packets_per_batch open and
  `TxPatch.SequenceNumbers` and the batches of `TxBatch` are about smaller widths.
- The bench's own layout checks compute in 32 bits and would accept fields near bit 2^32 for which
  patching goes wrong (`TxLimits.TransmitsExactly`). No such layout is ever sent: the library, which is
  initialised first, reads the same offsets into 16 bits (`TxPatch.ReachesTransmits`).
- RX queue ids may repeat within an interface, so a reorder flow id can reach two queues
  (`Validator.TwinQueuesAccepted`; exact condition in `Validator.ReorderQueueExactly`).
- `finalize_udp_ipv4_checksums` takes the UDP header at a fixed offset but the IP header length from
  the packet, and does not check the UDP length. `Checksum.HeaderVerifiesExactly` and
  `Checksum.UdpVerifiesExactly` give the exact conditions to verify afterwards; packets that do not
  are in `Checksum.OddHeadersFail` and `Checksum.ShortUdpFails`. Packets the benches make do
  (`PacketHeaders.MakePacket`).
- The packet writer's checksum loop agrees with the other program's for all lengths up to 65535;
  above, exactly when the carries it loses do not matter (`Checksum.BothChecksums`).
- A host text is validated only up to its first NUL character, so print-after-parse is not always a
  fixed point (`Endpoint.NotAlwaysFixed`; exact condition on the text in `Endpoint.SettlesExactly`).
- A `?` with nothing after it is accepted for every protocol (`Endpoint.ParseEndpointQuery`).
- The raw file writer refuses an unflagged null pointer even in a skipped segment, the S3 writer only
  in a segment it copies (`SegmentWalk.RawWrites`, `SegmentWalk.CopyPacketToStaging`).

## Model

| member | source | states |
|---|---|---|
| `Words.RoundUpPow2Exact` | src/daqiri_ring.h:109-121 | for requests up to 2^31 the smear gives the least power of two that is at least the request and at least 2; above that it wraps to exactly 0 |
| `Words.WrapKeepsSlot` | src/daqiri_ring.h:173-176 | masking the wrapped 32-bit cursor gives the slot of the unwrapped position, for every ring size |
| `RingTheorems.StepKeeps` | src/daqiri_ring.h:163-213 | every atomic step of every thread keeps the ring invariant, a slot access never leaves the ring, a spurious compare-exchange failure included; the step that moves the head needs the lap hypothesis above |
| `RingTheorems.CursorsAlwaysOrdered` | src/daqiri_ring.h:163-213 | in every state of every run of any number of producers and consumers: cons_tail <= cons_head <= prod_tail <= prod_head <= cons_tail + mask on unwrapped cursors, the 32-bit cursors are their remainders, and each unpublished position belongs to exactly one reservation in flight |
| `RingTheorems.MovedIsLog` | src/daqiri_ring.h:173-211 | the objects that completed calls took from their callers, or handed back to them, are in completion order exactly the ring's logical contents history |
| `RingTheorems.ExactlyOnceFifo` | src/daqiri_ring.h:173-211 | over every run the delivered objects are a prefix of the enqueued ones: none lost, duplicated, reordered or invented; at most mask wait |
| `RingTheorems.NeverOverwritten` | src/daqiri_ring.h:173-211 | a published object that no consumer has finished reading is still in its slot |
| `RingTheorems.HonestFailure` | src/daqiri_ring.h:246-275 | a bulk call gives up exactly when its snapshot leaves too little room, and then at that tail load the ring really had fewer than n free slots (or entries); that a call which does not give up moves everything is the next three rows |
| `RingSolo.CallMovesAllOrFails` | src/daqiri_ring.h:163-213 | in every run of any threads, a call of at least one object that has ended did so by giving up at a tail load, nothing changed, or by publishing exactly its objects (for a dequeue, n entries of the published sequence) |
| `RingSolo.SoloCompletes` | src/daqiri_ring.h:163-213 | from every reachable state with no call under way and for every n: one thread's own steps end its call, with all n objects moved if they fit in the free slots (or entries) and nothing otherwise, told on the two logs and n alone |
| `RingSolo.SoloExact` | src/daqiri_ring.h:163-213 | and whichever of its own steps it takes, spurious compare-exchange failures included, that is the outcome once the call has ended |
| `RingProof.TailHolder` | src/daqiri_ring.h:177-211 | whenever reservations are outstanding exactly one thread holds the segment that starts at the tail |
| `RingTheorems.TailHolderAdvances` | src/daqiri_ring.h:177-211 | that thread never waits: each of its own steps brings it strictly closer to publishing |
| `RingTheorems.CanDrain` | src/daqiri_ring.h:177-211 | from every reachable state the threads that hold slots can publish all outstanding reservations by their own steps, so the publish-order waits cannot deadlock |
| `RingLap.Laps` | src/daqiri_ring.h:163-213 | for every n, a run without lapped steps passes n objects through a two-slot ring while another thread stays before its compare-exchange |
| `RingLap.LappedReserveOverfills` | src/daqiri_ring.h:246-261 | the lap hypothesis is needed: a run from the initial state, itself without lapped steps, reaches a full ring in which that thread's compare-exchange succeeds and overfills it |
| `Ring.Ring.constructor` | src/daqiri_ring.h:131-145 | an empty quiescent ring whose size is the rounded request |
| `Ring.Ring.MoveProdHead` | src/daqiri_ring.h:236-262 | from any 32-bit cursor values, `next != head` exactly when the objects fit, so the failure signal is never confused with success |
| `Ring.Ring.MoveConsHead` | src/daqiri_ring.h:264-285 | likewise for consumers: exactly when enough entries are there |
| `Ring.Ring.CopyIn` | src/daqiri_ring.h:173-176 | the copy loop appends the objects to the window of live slots, across wraparound |
| `Ring.Ring.CopyOut` | src/daqiri_ring.h:201-204 | the copy loop reads the oldest entries in order |
| `Ring.Ring.EnqueueBulk` | src/daqiri_ring.h:163-188 | refines a bounded FIFO: all objects appended or nothing, and nothing exactly when they do not fit in mask - length |
| `Ring.Ring.DequeueBulk` | src/daqiri_ring.h:191-213 | all n oldest entries or nothing, and nothing exactly when fewer are there |
| `Ring.Ring.Enqueue` | src/daqiri_ring.h:155-157 | appends one object exactly when the queue is shorter than mask |
| `Ring.Ring.Dequeue` | src/daqiri_ring.h:158-160 | takes the oldest object exactly when there is one |
| `Ring.Ring.Count` | src/daqiri_ring.h:215-220 | equals the queue length while the ring is quiescent |
| `Ring.Ring.Capacity` | src/daqiri_ring.h:221-223 | the usable capacity is one less than the size |
| `ObjectPool.StrideSeparates` | src/daqiri_pool.h:50-50 | the stride is positive exactly when the element size is not 0 and not within 64 bytes of overflow; then it is the multiple of 64 that covers one element |
| `ObjectPool.SlabHoldsBlocks` | src/daqiri_pool.h:51-51 | the slab that is requested holds all blocks exactly when n * stride does not wrap in size_t |
| `ObjectPool.BlocksDisjoint` | src/daqiri_pool.h:64-69 | different blocks do not overlap and lie in the slab |
| `ObjectPool.ObjectPool.constructor` | src/daqiri_pool.h:44-71 | after create the free list holds exactly the n blocks, and populating it never failed |
| `ObjectPool.ObjectPool.Populate` | src/daqiri_pool.h:67-69 | the populate loop puts every block on the list in order |
| `ObjectPool.ObjectPool.Get` | src/daqiri_pool.h:87-89 | the oldest free block moves to the caller; fails exactly when none is free; free plus held stay exactly the blocks |
| `ObjectPool.ObjectPool.Put` | src/daqiri_pool.h:90-99 | a held block always finds room |
| `ObjectPool.ObjectPool.AvailCount` | src/daqiri_pool.h:101-103 | the number of free blocks |
| `ObjectPool.ObjectPool.InUseCount` | src/daqiri_pool.h:104-106 | the number of held blocks |
| `PoolSystem.PutFindsRoom` | src/daqiri_pool.h:90-99 | in any state of the concurrent pool the room check of a put succeeds |
| `PoolSystem.PoolRunKeepsInv` | src/daqiri_pool.h:87-99 | free, held and in-transit blocks stay a partition of the n blocks in every interleaving of get and of put on held blocks |
| `PoolSystem.EachBlockInOnePlace` | src/daqiri_pool.h:87-99 | at any moment each block waits in the free list once, or is held by exactly one thread, or is being put back by exactly one thread; nothing else is in the list or in a thread's hands |
| `PoolSystem.SlabFitsRing` | src/daqiri_pool.h:44-69 | with a positive stride the block addresses are n different addresses and fit the ring made for n + 1 entries, so the runs of the created pool are the runs of these theorems |
| `PoolSystem.HeldBlocksApart` | src/daqiri_pool.h:64-99 | in every state of every run of that pool, blocks held at the same moment, by one thread or by two, lie in the slab and do not overlap |
| `PoolSystem.PutNeverFails` | src/daqiri_pool.h:67-99 | over every run no put, populating included, finds the list full |
| `PoolSolo.GetCompletes` | src/daqiri_pool.h:87-89 | from every reachable state of the concurrent pool with no call under way, a get ends and hands the caller the oldest free block, or nothing exactly when none is free |
| `PoolSolo.PutCompletes` | src/daqiri_pool.h:90-99 | a put of a held block ends, with the block last in the free list and out of the caller's hands |
| `S3Window.TakeKeeps` | src/common_s3.cpp:421-434 | the submitting critical section keeps every counter exact; it stops exactly at a full window, at the end of the entries or on a finished handle |
| `S3Window.MarkKeeps` | src/common_s3.cpp:380-412 | the completing critical section keeps every counter exact; it asks for more submissions exactly while the handle is unfinished |
| `S3Window.S3WriteHandle.constructor` | src/common_s3.cpp:574-603 | a fresh handle, with a window of at least 1, finished at once when there is no entry |
| `S3Window.S3WriteHandle.TakeLocked` | src/common_s3.cpp:423-434 | refines the submitting critical section |
| `S3Window.S3WriteHandle.MarkLocked` | src/common_s3.cpp:382-412 | refines the completing critical section |
| `S3Window.S3WriteHandle.SubmitReadyUploads` | src/common_s3.cpp:420-460 | terminates by mutual recursion on the entries left; entries submitted in index order, those whose submission threw completed as failed, and the window left full, everything submitted, or the handle finished |
| `S3Window.S3WriteHandle.MarkUploadComplete` | src/common_s3.cpp:380-418 | the first completion of an entry counts, later ones change nothing, and the window is refilled |
| `S3System.StepKeeps` | src/common_s3.cpp:380-460 | every step of every interleaving of submitting threads, completions, duplicates and submission exceptions keeps the window invariant |
| `S3System.WindowAccounting` | src/common_s3.cpp:380-460 | in every state of every interleaving: inflight + completed = next_to_submit, inflight <= max, ok + failed = completed, entries taken once each in index order, and the mutual recursion is never deeper than the entries taken; which entries count as uploaded is the next row |
| `S3Told.BooksFollowReports` | src/common_s3.cpp:380-460 | what each entry was told first is read from the schedule alone (a callback with its outcome, or a submission that threw); in every state of every interleaving ok and failed objects and bytes are those of the entries told so, a handle is finished exactly when every entry was told, and reports success exactly when all were told success |
| `S3Told.ToldStands` | src/common_s3.cpp:386-390 | what an entry was told first stands, whatever follows |
| `S3System.NeverStalls` | src/common_s3.cpp:380-460 | an unfinished handle has a thread in the submit loop, or its window is full (or nothing is left to submit) and some upload is still owed an outcome |
| `S3System.FinishedIsFinal` | src/common_s3.cpp:402-409 | a finished handle has an outcome for every entry, reports success exactly when none failed, and never changes again |
| `S3Progress.StepCloser` | src/common_s3.cpp:380-460 | while the handle is unfinished, some step that needs nothing new (an owed callback, or a step of a call under way) brings it strictly closer to the end |
| `S3Progress.RunCanFinish` | src/common_s3.cpp:380-460 | from every state of every interleaving a schedule of owed callbacks and of steps of the calls under way finishes the handle, with an outcome for every entry |
| `S3Progress.StepWorks` | src/common_s3.cpp:380-460 | every owed callback, with any outcome, and every step of a call under way uses up a bounded amount of work |
| `S3Progress.RunMustFinish` | src/common_s3.cpp:380-460 | from every state of every interleaving, every schedule of such steps is bounded, and when none is left the handle is finished |
| `GdsLedger.ApplyKeeps` | src/common_gds.cpp:548-579 | one completion event, terminal or not, repeated or not, keeps the books in agreement with the entries' verdicts |
| `GdsLedger.BooksFollowEvents` | src/common_gds.cpp:530-586 | for every order, batching and repetition of events: pending[p] is the number of unsettled entries of packet p, a packet failed exactly when one of its entries had a bad first terminal event, bytes are those of the good ones, and each packet is counted once, when its last entry settles; which events settle an entry is the next row |
| `GdsLedger.VerdictExact` | src/common_gds.cpp:454-463 | an entry is settled exactly when some event naming it is COMPLETE, INVALID, CANCELED, TIMEOUT or FAILED, and good exactly when the first such event is COMPLETE with the expected byte count |
| `GdsLedger.UnderWayChangesNothing` | src/common_gds.cpp:454-463 | WAITING and PENDING events change nothing in the books |
| `GdsLedger.RepeatChangesNothing` | src/common_gds.cpp:548-557 | nor do events without a cookie or for an entry that has ended |
| `GdsLedger.OrderDoesNotMatter` | src/common_gds.cpp:530-586 | two event histories that settle the entries alike leave identical books |
| `GdsLedger.DrainedCountsEveryPacket` | src/common_gds.cpp:466-481 | once every entry has settled, completed + failed packets is the packet count and every packet is done |
| `GdsHandle.FileWriteHandle.QueueWrite` | src/common_gds.cpp:639-707 | one write is queued with its cookie, or its bytes are counted as written |
| `GdsHandle.FileWriteHandle.FinalizePacket` | src/common_gds.cpp:709-715 | of the packets finalized so far exactly those with nothing queued are complete |
| `GdsHandle.FileWriteHandle.AddPacket` | src/common_gds.cpp:639-671 | the device writes of one packet become its cookies in order and the bytes of the others are counted as written; a packet with nothing queued is complete at once |
| `GdsHandle.BuildRaw` | src/common_gds.cpp:846-941 | the packet loop refuses the burst exactly for an unflagged null pointer; otherwise each packet has its layout, with exactly the bytes of device segments going through the driver, the queue is exactly the device writes of the layouts in order, the bytes counted as written are exactly the others, and the queue never exceeds packets x segments, the size reserved to keep cookie addresses stable |
| `GdsHandle.FileWriteHandle.SubmitBatches` | src/common_gds.cpp:603-637 | batches of at most 128 partition the queued entries in order; after a refusal exactly the batches before it count |
| `GdsHandle.FileWriteHandle.FinishSubmission` | src/common_gds.cpp:717-745 | a fully host-written burst is finished at once with every packet completed; otherwise all entries are submitted and the handle is unfinished |
| `GdsHandle.FileWriteHandle.ApplyEvent` | src/common_gds.cpp:550-578 | the event loop's body refines one ledger step, whose meaning is fixed by the ledger's theorems above |
| `GdsHandle.FileWriteHandle.HandleEvent` | src/common_gds.cpp:548-579 | handling an event keeps the handle sound, whether or not its batch was already done |
| `GdsHandle.FileWriteHandle.PollBatch` | src/common_gds.cpp:530-586 | all reported events are handled; the batch is marked done if and only if all its entries have settled, and no other batch changes |
| `GdsHandle.FileWriteHandle.Poll` | src/common_gds.cpp:516-600 | the events entered in the books are exactly those reported for the batches not yet done, in order, up to the first failed report; that failure finishes the write, otherwise it is finished exactly when all submitted entries have settled, with success exactly when no packet failed; batches are marked done exactly when settled; a finished handle only repeats its status |
| `GdsRun.SkipsNothing` | src/common_gds.cpp:531-534 | leaving out the batches already done loses no event that matters |
| `GdsRun.PollAll` | src/common_gds.cpp:516-600 | over any number of polls the entries are settled exactly as by everything the driver told, up to a failed report of an unfinished batch; without one, every failed report concerned a batch that has settled |
| `GdsRun.GoodResult` | src/common_gds.cpp:588-595 | everything settled and no packet failed exactly when the first terminal event of every queued write is COMPLETE with its byte count; then the bytes are all counted and every packet is complete |
| `GdsRun.WriteBurst` | src/common_gds.cpp:846-941 | a burst built, submitted and polled any number of times against an arbitrary driver: the books are those of everything told, the write succeeds exactly when the first terminal event of every queued write is COMPLETE with its byte count, and then the bytes written are exactly those of the burst from the offset on and every packet is complete |
| `SegmentWalk.WriteZeros` | src/common_gds.cpp:678-691 | a null segment becomes writes of zeros, each of at most 4096 bytes, that follow what was written and tile its range |
| `SegmentWalk.QueueSegment` | src/common_gds.cpp:674-707 | the writes so far keep tiling the file and spell the segment from the skipped byte on; its bytes go through the driver exactly when it is a device segment with a pointer |
| `SegmentWalk.RawWrites` | src/common_gds.cpp:894-931 | the raw file walk of one packet: writes tile the output from 0 and spell concat(segments)[offset..], null segments as zeros, empty past the end; byte by byte, device segments go through the driver and the rest to the file directly; refused exactly for an unflagged null pointer, even in a skipped segment |
| `SegmentWalk.PacketLengthAfterOffset` | src/common_s3.cpp:150-162 | the length of concat(segments)[offset..], 0 past the end |
| `SegmentWalk.CopyPacketToStaging` | src/common_s3.cpp:219-276 | the S3 walk fills exactly that many bytes with concat(segments)[offset..]; refused exactly above 5 GiB, or for an unflagged null pointer in a segment that is not skipped |
| `SegmentWalk.OrderDoesNotMatter` | src/common_gds.cpp:674-707 | tiling writes leave the same bytes in the file in whatever order they complete, and none elsewhere |
| `SegmentWalk.FileAndObject` | src/common_s3.cpp:219-276 | both writers called on one packet both succeed if and only if no segment is an unflagged null pointer and the rest is at most 5 GiB; then the file, after its writes land in any order, and the S3 object hold the same bytes |
| `Pcap.RecordsReadBack` | src/common_gds.cpp:747-759 | a reader of the record format recovers the written packets with their times |
| `Pcap.PcapFile.LongestPacket` | src/common_gds.cpp:300-317 | the longest packet of the burst, refused exactly when one needs more than 32 bits |
| `Pcap.PcapFile.Preflight` | src/common_gds.cpp:253-298 | refused exactly for an unflagged null segment |
| `Pcap.PcapFile.AppendRecord` | src/common_gds.cpp:1004-1059 | appends exactly the record of the packet |
| `Pcap.PcapFile.AppendBurst` | src/common_gds.cpp:943-1069 | refines the append operation on the file |
| `Pcap.CaptureReadsBack` | src/common_gds.cpp:761-826 | after any sequence of bursts a reader (sections 4 and 5 of draft-ietf-opsawg-pcap) recovers exactly the packets of the accepted bursts with their times, every length within the snapshot length fixed by the first of them |
| `Pcap.AcceptedExactlyWhenFits` | src/common_gds.cpp:761-826 | the first burst is accepted exactly when its lengths need no more than 32 bits, later ones exactly when they fit the snapshot length, and none with an unflagged null segment; a rejected burst leaves the file unchanged |
| `Pcap.CompatibleExact` | src/common_gds.cpp:761-826 | an existing file is compatible exactly when it begins with the bytes of a little-endian microsecond header of version 2.4 for Ethernet |
| `Pcap.AppendsExactly` | src/common_gds.cpp:761-826 | any file with content is appended to exactly when it is compatible and the burst fits its snapshot length; what was there stays, followed by the burst's records |
| `MemoryPlan.RoundUpChecked` | src/engine.cpp:674-681 | succeeds exactly when the sum stays in size_t; then the result is the least multiple that covers the value |
| `MemoryPlan.SumPermutes` | src/engine.cpp:904-918 | the bytes a node's arena needs do not depend on the iteration order of the region map |
| `MemoryPlan.Allocator.SizeRegions` | src/engine.cpp:882-899 | succeeds exactly when no region's span overflows; then every region has its page-rounded span |
| `MemoryPlan.Allocator.PlanArenas` | src/engine.cpp:901-918 | succeeds exactly when every pooled region has a size and no node total overflows; totals are the order-independent sums |
| `MemoryPlan.Allocator.MapArenas` | src/engine.cpp:928-958 | one mapping per planned node, at least as large as its total; fails exactly when some node cannot be mapped |
| `MemoryPlan.Allocator.AssignRegion` | src/engine.cpp:960-1048 | a region's verdict and address; the missing-arena and arena-overflow branches are unreachable |
| `MemoryPlan.Allocator.AssignRegions` | src/engine.cpp:960-1161 | returns the first failure in iteration order, or places every region, each arena's bump pointer ending at its used size |
| `MemoryPlan.Allocator.AllocateMemoryRegions` | src/engine.cpp:875-1161 | the whole call, for any three iteration orders of its loops: its exact outcome, and on success every region placed |
| `MemoryRegions.SlicesTile` | src/engine.cpp:1027-1043 | every byte of [0, used_size) of an arena belongs to exactly one slice, whatever orders planning and assigning used |
| `MemoryRegions.SliceInArena` | src/engine.cpp:1034-1040 | no slice reaches past used_size |
| `MemoryRegions.SliceAligned` | src/engine.cpp:1041-1042 | every slice starts on a 64 KiB page of its arena |
| `MemoryRegions.CheckBindings` | src/engine.cpp:500-529 | external bindings are accepted exactly when each is good on its own and they are pairwise disjoint |
| `MemoryRegions.CheckedBindingsApart` | src/engine.cpp:517-529 | accepted bindings leave no two external regions overlapping |
| `MemoryRegions.AllocatableExactly` | src/engine.cpp:960-1043 | a region is given memory exactly when it is null; or bound to memory large enough and aligned for engine and kind; or owned, and pooled or served by the system allocator |
| `MemoryRegions.WhereRegionsGo` | src/engine.cpp:960-1043 | after a successful allocation a bound region is at its caller's memory, a pooled hugepage region in the arena of its own NUMA node on a 64 KiB boundary, and any other where the system allocator put it |
| `MemoryRegions.SuccessInAnyOrder` | src/engine.cpp:875-1161 | whether the allocation succeeds does not depend on the iteration order |
| `MemoryRegions.RegionsApart` | src/engine.cpp:960-1043 | no two regions overlap, given allocators that return memory nothing else uses |
| `MemoryRegions.BuffersNeverAlias` | src/engine.cpp:612-623 | after a successful allocation every buffer lies in its region and no two buffers overlap, of one region or of two; with a positive stride their addresses differ |
| `MemoryRegions.PopulatePool` | src/engine.cpp:612-623 | succeeds exactly when the ring has room for all buffers, and then appends them in order |
| `MemoryPools.FillPools` | src/engines/rdma/daqiri_rdma_engine.cpp:554-573 | a pool for each region in a ring of one more entry than it has buffers; none is refused |
| `MemoryPools.BuildPools` | src/engines/rdma/daqiri_rdma_engine.cpp:546-573 | bindings checked, regions allocated and pools filled: succeeds exactly when the bindings are good and the allocation succeeds; then every pool holds all buffers of its region in order, and no two entries of any pools overlap |
| `RoundRobin.RxScheduler.constructor` | src/engine.h:332-333 | a scheduler that starts at index 0 everywhere |
| `RoundRobin.RxScheduler.GetRxBurstOnPort` | src/engine.cpp:1762-1790 | each queue asked once, cyclically from the port's index; the first poll that ends the search is returned and moves the index past it; otherwise NOT_READY exactly when some queue was |
| `RoundRobin.RxScheduler.GetRxBurst` | src/engine.cpp:1792-1817 | the same over interfaces, with both indices left as the specification says |
| `RoundRobin.SearchFinds` | src/engine.cpp:1776-1789 | a search returns a result that is neither null nor NOT_READY whenever there is one, otherwise NOT_READY exactly when some result is |
| `RoundRobin.CallReturns` | src/engine.cpp:1792-1817 | when interface k has port id k: a call serves a ready queue whenever one exists on any port, with what that queue returned; otherwise it moves no index and says NOT_READY exactly when some queue did |
| `RoundRobin.SearchNears` | src/engine.cpp:1776-1786 | a search serves a given ready index or ends strictly nearer to it |
| `RoundRobin.CallNears` | src/engine.cpp:1792-1817 | a call that leaves a ready queue unserved strictly decreases a two-level cyclic distance to it |
| `RoundRobin.ServedWithinBound` | src/engine.cpp:1762-1817 | from any scheduler state a queue that stays ready is served within (interfaces) x (RX queues of its port) calls, whatever the other queues return, when interface k has port id k |
| `BitField.SetBitsBe` | examples/raw_reorder_quantize_bench.cpp:238-250 | the in-place loop, whose bit index wraps in 32 bits, writes the wrapped field and no byte outside its buffer range |
| `BitField.WrappedIsField` | examples/raw_reorder_quantize_bench.cpp:238-250 | a field that ends within 32-bit bit indices is written where it should be |
| `BitField.NeverBeyond` | examples/raw_reorder_quantize_bench.cpp:238-250 | a bit past the 32-bit indices is never written |
| `BitField.SetFieldExact` | examples/raw_reorder_quantize_bench.cpp:238-250 | bits of the field hold the value most significant first; every other bit is kept |
| `BitField.FieldRoundTrip` | examples/raw_reorder_quantize_bench.cpp:238-250 | a field reads back as the value modulo 2^width |
| `BitField.OtherFieldKept` | examples/raw_reorder_quantize_bench.cpp:238-250 | a disjoint field reads as before |
| `BitField.FieldInSlice` | examples/raw_reorder_quantize_bench.cpp:756-761 | writing a field into a slice at the shifted offset is writing it into the whole buffer |
| `TxPatch.PatchCoversExactly` | examples/raw_reorder_quantize_bench.cpp:666-670 | of the layouts the bench's own checks accept, the patched bytes cover both fields and stop before the payload if and only if neither field end wraps in 32 bits |
| `TxPatch.DerivedShares` | examples/raw_reorder_quantize_bench.cpp:491-492 | for the widths the library admits, packets_per_batch is never 0 and times the number of batches gives the number of sequence numbers |
| `TxPatch.ReachesTransmits` | src/common.cpp:1525-1541 | no layout that passes both the bench's checks and the library's reader of the same fields, whose offsets are 16 bits wide, wraps anywhere |
| `TxPatch.FreshIsRebuild` | examples/raw_reorder_quantize_bench.cpp:738-750 | for every layout that reaches the loop the 32-bit bit arithmetic builds the intended packet for a fresh buffer |
| `TxLimits.TransmitsExactly` | examples/raw_reorder_quantize_bench.cpp:586-605 | the bench's layout checks on their own: of the layouts they accept, every fresh packet and every patched buffer is right, for all templates, slots and batches, if and only if both fields end within 32-bit bit indices, rounding the batch end up to a byte does not wrap, and the sequence bits past the patch are the same in every batch |
| `TxLimits.ReachesRight` | examples/raw_reorder_quantize_bench.cpp:586-605 | every layout that reaches the loop is one of those |
| `TxLimits.WrappedLayout` | examples/raw_reorder_quantize_bench.cpp:586-605 | the bench's checks alone would not be enough: a layout, with the derived packets_per_batch, that they accept, the library refuses, and whose patched buffer would not be the packet of its batch |
| `TxLimits.HarmlessWrap` | examples/raw_reorder_quantize_bench.cpp:586-605 | another that wraps and would be right all the same |
| `TxPatch.MaskedValue` | examples/raw_reorder_quantize_bench.cpp:233-236 | masking with the field's value mask is reduction modulo 2^width, width 32 included |
| `TxPatch.PatchEqualsRebuild` | examples/raw_reorder_quantize_bench.cpp:735-765 | for every layout that reaches the loop, patching a buffer that holds the packet of any earlier batch gives, byte for byte, the packet a full rebuild gives, overlapping fields included |
| `TxPatch.SequenceNumbers` | examples/raw_reorder_quantize_bench.cpp:735-737 | for every layout that reaches the loop with a defined packets_per_batch, the masked sequence number is batch x packets_per_batch + slot, so it determines batch and slot |
| `TxPatch.FieldsReadBack` | examples/raw_reorder_quantize_bench.cpp:735-747 | a receiver reads both numbers back when the fields do not overlap |
| `TxPatch.PacketContents` | examples/raw_reorder_quantize_bench.cpp:738-750 | the packet for a slot carries that slot's payload and, in front of it, the template's bits everywhere but in the two fields |
| `TxWorker.BatchOfPacket` | examples/raw_reorder_quantize_bench.cpp:766-770 | packet i of a burst is in batch (start + (already in batch + i) / packets_per_batch) modulo 2^32, across bursts |
| `TxWorker.SlotsKept` | examples/raw_reorder_quantize_bench.cpp:728-733 | a buffer keeps the slot it was first given |
| `TxBatch.SlotsInTurn` | examples/raw_reorder_quantize_bench.cpp:728-733 | the i-th buffer seen for the first time gets slot (start + i) modulo packets_per_batch |
| `TxBatch.BurstsJoin` | examples/raw_reorder_quantize_bench.cpp:705-771 | two bursts leave the counters and slots of the one burst that joins them |
| `TxBatch.FreshSlots` | examples/raw_reorder_quantize_bench.cpp:728-733 | different new buffers get consecutive slots, so as many as a batch has packets get each slot once |
| `TxWorker.StagePacket` | examples/raw_reorder_quantize_bench.cpp:738-750 | stages exactly the packet the 32-bit bit arithmetic builds, for every accepted layout |
| `TxWorker.StagePatch` | examples/raw_reorder_quantize_bench.cpp:751-765 | stages exactly the patch bytes, for every accepted layout whose patch lies in the packet |
| `TxWorker.StageNeeded` | examples/raw_reorder_quantize_bench.cpp:735-765 | the branch taken stages exactly what the buffer needs: the whole packet, or the bytes that turn an earlier batch's packet into this one's |
| `TxWorker.TxWorker.constructor` | examples/raw_reorder_quantize_bench.cpp:642-674 | for every layout that reaches the loop, a worker that has seen no buffer, with packet_size x batch_size bytes of staging |
| `TxWorker.TxWorker.StageOne` | examples/raw_reorder_quantize_bench.cpp:719-770 | one turn of the packet loop: counters, slot table and staged bytes; which slots are given is in the three rows on slots above |
| `TxWorker.TxWorker.StageBurst` | examples/raw_reorder_quantize_bench.cpp:705-771 | fails exactly on more packets than batch_size or a null buffer; otherwise every staged entry is what its buffer needs and staging never exceeds packet_size x batch_size |
| `TxWorker.TxWorker.CopyBurst` | examples/raw_reorder_quantize_bench.cpp:773-782 | after the batched copy every buffer of the burst holds its full packet and no other buffer changed |
| `TxWorker.TxWorker.SendBurst` | examples/raw_reorder_quantize_bench.cpp:690-797 | after every burst that is sent, each buffer seen so far holds the full packet for its slot and the batch it was last given; the numbers a receiver then reads are in the next rows |
| `TxBatch.PacketNumbers` | examples/raw_reorder_quantize_bench.cpp:728-770 | read from the bits of the sent packet: the batch number, the sequence number batch x packets_per_batch + slot, and the payload of that slot |
| `TxBatch.BatchExactlyOnce` | examples/raw_reorder_quantize_bench.cpp:728-770 | a whole batch whose buffers have different slots carries its batch number and each of its sequence numbers exactly once |
| `TxBatch.FreshBatch` | examples/raw_reorder_quantize_bench.cpp:728-770 | every whole batch sent on buffers not seen before does |
| `TxBatch.FirstBurst` | examples/raw_reorder_quantize_bench.cpp:642-797 | a new worker's first burst is sent, and packet i of its first batch reads batch 0, sequence number i and payload i |
| `Checksum.FoldValue` | examples/raw_bench_common.cpp:486-488 | folding is arithmetic modulo 65535, with 0 kept apart from 65535 |
| `Checksum.FoldAdd` | examples/raw_bench_common.cpp:483-496 | folding early never changes the result |
| `Checksum.AddChecksumBytes` | examples/raw_bench_common.cpp:481-497 | the eager loop folds to the same value as the plain word sum, odd last byte included, in 32-bit arithmetic |
| `Checksum.ChecksumOf` | examples/raw_bench_common.cpp:499-504 | the stored checksum is the complement of the folded word sum |
| `Checksum.ChecksumAdd` | examples/pcap_writer_example.cpp:64-74 | the deferred loop is the word sum in 32-bit arithmetic |
| `Checksum.DeferredFits` | examples/pcap_writer_example.cpp:64-74 | 65535 bytes cannot overflow the 32-bit sum |
| `Checksum.ChecksumFinish` | examples/pcap_writer_example.cpp:76-81 | the complement of the folded sum |
| `Checksum.LostCarries` | examples/pcap_writer_example.cpp:64-81 | a sum cut to 32 bits folds to the same value if and only if it was 0, or is not cut to 0 and loses a multiple of 65535 carries |
| `Checksum.BothChecksums` | examples/pcap_writer_example.cpp:64-81 | the per-word fold and the deferred carry run on the same bytes give the same checksum exactly then; always up to 65535 bytes |
| `Checksum.PseudoHeaderSum` | examples/raw_bench_common.cpp:550-556 | the pseudo-header words, folded in three pieces, sum as one |
| `Checksum.FinalizeUdpIpv4` | examples/raw_bench_common.cpp:540-562 | in place, the packet with both checksum fields set and nothing else changed |
| `Checksum.ComplementCloses` | examples/raw_bench_common.cpp:499-562 | a sum plus its complement folds to 0xffff, and also after 0 is replaced by 0xffff |
| `Checksum.UdpVerifiesExactly` | examples/raw_bench_common.cpp:549-561 | for every packet, pseudo-header and UDP part, with the UDP header at byte 34 as the code takes it, then sum to 0xffff (RFC 768) if and only if: the UDP length is at least 8, odd ones included; or it is 7 and the low byte of the final checksum is 0; or it is shorter and the sum already verified; the stored checksum is never 0 |
| `Checksum.ShortUdpFails` | examples/raw_bench_common.cpp:549-561 | packets with UDP lengths 0 and 7 that do not verify afterwards |
| `Checksum.HeaderVerifiesExactly` | examples/raw_bench_common.cpp:540-547 | the header sum is 0xffff afterwards exactly when: the header length is 12 to 24 bytes; or it is shorter and already verified; or it is longer, so taken to cover the UDP checksum, and that word already had its final value modulo 65535 |
| `Checksum.OddHeadersFail` | examples/raw_bench_common.cpp:540-547 | packets with header lengths of 0 and 28 bytes that do not verify afterwards |
| `Checksum.Ipv4Checksum` | examples/pcap_writer_example.cpp:83-85 | the complement of the header's word sum |
| `Checksum.UdpChecksum` | examples/pcap_writer_example.cpp:87-100 | the UDP checksum of a whole packet, 0 replaced by 0xffff, without overflow |
| `Checksum.BothPrograms` | examples/pcap_writer_example.cpp:87-100 | run on one packet that ends with its UDP part, the in-place program stores the checksum that the packet writer computes if and only if the protocol is UDP |
| `PacketHeaders.Populate` | examples/raw_bench_common.cpp:506-538 | the header bytes of a packet of n bytes for a flow, with the header checksum, the payload cleared and nothing after it touched |
| `PacketHeaders.PopulatedVerifies` | examples/raw_bench_common.cpp:506-562 | a packet with these headers and any payload verifies once finished: header always, UDP part unless its 16-bit length wrapped below 8; the UDP header is where a receiver finds it |
| `PacketHeaders.FirstCheckStays` | examples/raw_bench_common.cpp:506-547 | finishing does not change the header checksum stored by populate |
| `PacketHeaders.MakePacket` | examples/raw_gpudirect_bench.cpp:113-129 | headers, payload and checksums as the benches make a packet: a receiver reads from it the flow's MAC and IP addresses, ports and lengths and the payload, and both sums verify for every packet up to the largest IPv4 one |
| `RdmaWindow.CapBelowPool` | examples/rdma_bench.cpp:133-143 | the in-flight cap is at least 1, below the event pool and within the receive depth; short of those limits it is what was requested, or by default half the depth and at most 32 |
| `RdmaWindow.RdmaWorker.constructor` | examples/rdma_bench.cpp:128-172 | a worker with nothing posted, held or freed |
| `RdmaWindow.RdmaWorker.EventDone` | examples/rdma_bench.cpp:146-148 | reports the event done exactly when the GPU stream has passed it |
| `RdmaWindow.RdmaWorker.ReclaimCompleted` | examples/rdma_bench.cpp:146-152 | frees a prefix of the held buffers in order, each after its event, and stops at the first whose event is not done |
| `RdmaWindow.RdmaWorker.RecordEvent` | examples/bench_workload.cu:355-383 | an event exactly when one is free and recording succeeds; a failed recording gives it back |
| `RdmaWindow.RdmaWorker.HoldReceive` | examples/rdma_bench.cpp:282-300 | the completion is held under an event recorded after its read, or freed after the whole stream was waited for; the log of frees only grows |
| `RdmaWindow.RdmaWorker.TakeReceive` | examples/rdma_bench.cpp:282-317 | a receive under the workload gets its read recorded and fewer than max_inflight buffers stay held |
| `RdmaWindow.RdmaWorker.MatchReceive` | examples/rdma_bench.cpp:276-318 | a receive completion while receives are outstanding is counted and keeps all invariants; with a pool of at least the cap the stream is waited for only when recording itself fails |
| `RdmaWindow.RdmaWorker.DropReceive` | examples/rdma_bench.cpp:276-320 | a receive completion while none is outstanding is freed at once, uncounted, with no read |
| `RdmaWindow.RdmaWorker.HandleCompletion` | examples/rdma_bench.cpp:267-320 | keeps all invariants: fewer than max_inflight buffers held at the next poll, posts = completions + outstanding; each completion is counted as sent, matched, unmatched or other, and freed (exact counts over a turn: RdmaWindow.PolledFlow); with a pool of at least the cap the fallback synchronisation happens only when recording itself fails |
| `RdmaWindow.RdmaWorker.PostSend` | examples/rdma_bench.cpp:205-240 | one more outstanding send exactly when there is room and the transport accepts |
| `RdmaWindow.RdmaWorker.PostRecv` | examples/rdma_bench.cpp:205-240 | one more outstanding receive exactly when there is room and the transport accepts |
| `RdmaWindow.RdmaWorker.RefillReceives` | examples/rdma_bench.cpp:242-250 | posts exactly as many receives as the transport accepts and the depth leaves room for |
| `RdmaWindow.RdmaWorker.PostSends` | examples/rdma_bench.cpp:323-330 | the same for sends, and none while receives are wanted and none is posted |
| `RdmaWindow.RdmaWorker.TakeCompletions` | examples/rdma_bench.cpp:267-321 | every completion polled in a turn is taken, in order |
| `RdmaWindow.RdmaWorker.DrainHeld` | examples/rdma_bench.cpp:156-163 | every held buffer is freed in order, each after its event |
| `RdmaWindow.RdmaWorker.Turn` | examples/rdma_bench.cpp:179-344 | one turn keeps all invariants, and outstanding requests, completions and unmatched receives are exactly what the turn's completions and accepted posts amount to |
| `RdmaWindow.PolledFlow` | examples/rdma_bench.cpp:267-321 | after any completions polled in a turn exactly min(outstanding, reported) sends and receives are counted and no longer outstanding, and exactly the rest is unmatched |
| `RdmaWindow.PostedFlow` | examples/rdma_bench.cpp:242-330 | posting goes up to the depth with what the transport accepts, sends only while no receive is missing, and changes nothing else |
| `RdmaWindow.TurnFills` | examples/rdma_bench.cpp:242-344 | while the transport accepts, every turn leaves both queues full until the worker is stopped |
| `RdmaWindow.ReportedFlow` | examples/rdma_bench.cpp:179-344 | over any run the receives taken are exactly those reported and the other completions freed exactly the others reported; if the transport never reports more than is outstanding, every report is counted, none is unmatched, and otherwise no more than were reported |
| `RdmaWindow.RdmaWorker.Work` | examples/rdma_bench.cpp:179-346 | over every run, ended at any point: the receives taken are exactly those reported in the turns and each was freed exactly once; at the moment of each free the GPU had passed the read of that buffer; the receives with a read are exactly those that answered a posted receive under the workload, one work item each, in order of arrival; counters and outstanding requests are those of the run's completions and accepted posts, and exactly those reported if the transport never reports more than is outstanding |
| `Validator.CountUsers` | src/engine.cpp:1244-1251 | the table counts every mention of a region by queues and reorder outputs |
| `Validator.CheckRegions` | src/engine.cpp:1192-1213 | passes exactly when every region is known and null regions appear only where allowed |
| `Validator.CheckRx` | src/engine.cpp:1256-1289 | passes exactly when the RX queue's poll mode and fields agree |
| `Validator.CheckShared` | src/engine.cpp:1296-1327 | passes exactly when the shared TX queue has sole use of 1 to 4 usable regions and a batch within its send credits |
| `Validator.CheckTx` | src/engine.cpp:1290-1359 | passes exactly when the TX queue is consistent |
| `Validator.CheckFlows` | src/engine.cpp:1404-1447 | passes exactly when ids are unique, non-zero ones new, and queue targets distinct and configured; leaves exact lookup tables |
| `Validator.CheckReorders` | src/engine.cpp:1480-1516 | passes exactly when every reorder flow id is known, not RSS, and feeds no direct queue and no null region |
| `Validator.CheckInterface` | src/engine.cpp:1252-1516 | passes exactly when all modelled checks of an interface hold |
| `Validator.ValidateNetworkConfig` | src/engine.cpp:1215-1586 | passes exactly when all modelled checks and the others hold, and then the configuration is sound as in the next row |
| `Validator.AcceptedIsSound` | src/engine.cpp:1215-1586 | an accepted configuration has RX flow ids unique per interface and non-zero ones unique globally; every reorder flow id names exactly one flow, which goes to exactly one queue id whose configured queues are all indirect and free of null regions; every region of a shared TX queue has exactly one user in the whole configuration and its batch size is within the send credits |
| `ValidatorUses.SharedRegionsAreExclusive` | src/engine.cpp:1244-1327 | told by place and not by count: no RX queue, other TX queue or reorder output anywhere names a region of an accepted shared TX queue, nor does that queue name it twice |
| `ValidatorUses.RxExact` | src/engine.cpp:1256-1289 | the RX checks pass exactly when all regions are usable and the queue can be polled as its mode says |
| `ValidatorUses.TxExact` | src/engine.cpp:1290-1359 | the TX checks pass exactly when all regions are usable and the queue can send, shared or not, as its mode says |
| `ValidatorUses.QueuesCanRun` | src/engine.cpp:1252-1359 | so every queue of an accepted configuration can run as configured |
| `ValidatorUses.FlowsGoSomewhere` | src/engine.cpp:1404-1447 | every RX flow of an accepted configuration ends in configured queues of its interface, each named once |
| `Validator.OneQueueExactly` | src/engine.cpp:1404-1516 | a reorder flow id that is accepted goes to one queue id, and reaches exactly one RX queue if and only if no other RX queue of the interface repeats that id |
| `Validator.ReorderQueueExactly` | src/engine.cpp:1252-1516 | the same for every reorder flow id of every accepted configuration, and every queue it reaches is indirect and free of null regions |
| `Validator.TwinQueuesAccepted` | src/engine.cpp:1256-1258 | an accepted configuration in which a reorder flow id reaches two RX queues |
| `Endpoint.ParseEndpointQuery` | src/common.cpp:1942-1982 | accepts exactly the empty query, or for RoCE one or more engine=ibverbs joined by & |
| `Endpoint.DecimalReads` | src/common.cpp:2084-2094 | the printed port reads back as the port |
| `Endpoint.ParseExact` | src/common.cpp:1984-2056 | the parser succeeds with an address exactly when the text denotes it in an independent grammar |
| `Endpoint.ParsedAddress` | src/common.cpp:1984-2056 | what every accepted text guarantees about protocol, host and port |
| `Endpoint.OctetExact` | src/common.cpp:2048-2052 | an octet is exactly the decimal text of a number up to 255 |
| `Endpoint.Ipv4Exact` | src/common.cpp:2048-2052 | an accepted host, up to its first NUL, is exactly four such numbers joined by dots |
| `Endpoint.SchemesParsed` | src/common.cpp:1984-2056 | tcp, udp, roce and its alias rdma with any dotted quad and any port from 1 to 65535 parse to exactly that protocol, host and port |
| `Endpoint.PrintThenParse` | src/common.cpp:2084-2094 | printing a valid address and parsing gives it back; a RoCE port 0 is elided and recovered exactly where it may be missing; other protocols print nothing for port 0 |
| `Endpoint.PrintedIsFixedPoint` | src/common.cpp:1984-2094 | for every accepted text, rdma alias, leading zeros and queries included, print-after-parse parses to the same address exactly unless the port is 0 and the host holds a ':' |
| `Endpoint.SettlesExactly` | src/common.cpp:1984-2094 | the same told from the text: print-after-parse settles if and only if the authority does not have a ':' before its last ':' with only zeros after it |
| `Endpoint.FixedPointWithoutNul` | src/common.cpp:1984-2094 | so it holds for every accepted host without NUL characters |
| `Endpoint.NotAlwaysFixed` | src/common.cpp:2048-2052 | for every dotted quad, an accepted text whose host goes on after a NUL that inet_pton does not look past, and whose printed form does not parse back |

## Left out

- Weak-memory ordering and fences of the ring, and the lifetimes of handles relative to callback threads.
- CUDA, cuFile, the AWS SDK, mmap, libnuma, sysfs and the transports: they are inputs that succeed or fail.
- The choice among hugepage sizes in `discover_hugepage_candidates`: one mapping per node is an input, because ordering candidates would only add easy members.
- CUDA attribute checks on external bindings, and the deallocation of regions.
- The validator's checks on loopback, tunnels, VLANs, frame sizes, TX flows and RDMA queue pairing: they can only clear the verdict and enter as one input.
- Partially written capture files after an I/O error in the middle of a burst, and device segments in capture files.
- The wait for accepted batches after a refused submission in `finish_handle_submission`.
- Creation, configuration checks and request preparation of the S3 writer.
- The contents `fill_payload` gives each slot: they are an input, one payload for each slot.
- The connection handling, pacing, statistics and drain deadline of the RDMA worker: a run is any finite sequence of turns.
- YAML decoding, logging, forwarding functions and unsupported-operation stubs.
- The DPDK, ibverbs, RDMA and socket engines, the GPU kernels and the Python tooling.
- TxPatch.SequenceNumbers: sequence fields of 32 bits are left out, because packets_per_batch is then the result of an undefined shift.
- TxBatch.PacketNumbers: sequence fields of 32 bits are left out for the same reason, and overlapping fields because the two numbers then cannot both be read back.
- RdmaWindow.RdmaWorker.RefillReceives: the priming loop that retries it while the transport is busy is not modelled.
