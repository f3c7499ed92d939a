# Reordering receive path: a verified model

The repository makes Linux receive TCP traffic that arrives heavily reordered. This project models
the parts of it that carry the logic and proves what they promise.

* **Netfilter reorder module** (`Serial`, `Reorder`, `ReorderOrder`, `ReorderFate`,
  `ReorderQueue`): a sorted doubly linked list of held packets, 32-bit sequence numbers, overflow
  and overlap flushes, and a timer.
* **Reordering GRO** (`GroQueue`, `GroOrder`, `GroTimeout`, `GroFate`, `GroMeaning`, `GroWrap`,
  `GroList`, `GroPool`): the per-flow out-of-order queue with its insert, merge, bridge and flush
  branches, its timed completion, and the pool of nine queues of a NAPI instance.
* **Socket buffers** (`SkbData`, `SkbCopy`, `SkbStore`, `SkbCells`, `SkbChecksum`, `SkbLayout`,
  `SkBuff`, `SkBuffMove`, `SkbSegment`, `SkbGro`): a buffer is a linear part, page fragments and a
  list of further buffers; `Flat` is the packet that the layout stands for, and copying, storing,
  summing, pulling, trimming, splitting, shifting, segmenting and merging are stated by what they
  do to it.
* **Page fragment allocator** (`PageFrag`): fragments carved off one page with a biased reference
  count, while users drop references at any time.
* **Receive Packet Steering** (`Rps`, `RpsMoves`): per-CPU backlogs with head and tail counters,
  and a flow table whose entries move between CPUs.
* **Device lists** (`DevGraph`, `DevClosure`, `DevNeighbours`, `DevLink`): upper and lower devices
  with reference counts, linking with allocation failure and rollback.
* **NetFPGA driver** (`Nf10Ring`, `Nf10`, `Nf10Wake`, `Nf10Work`): DMA rings and the polling loop.

Where the code updates fields step by step there is a class or a method with the same loops and
branches, proved equal to functions from state to state; the laws are proved about these
functions. Concurrent code is a state machine over its atomic steps, and the laws hold for every
sequence of steps; what runs under different locks is made of different steps. Allocations that
fail are inputs, and an operation that may fail does so exactly when one of those it needs does.
For each of these functions there are laws that do not mention it: what it keeps in every state,
and what it does, spelled out (`ReorderFate`, `GroFate`, `GroTimeout`, `RpsMoves`, `Nf10Wake`,
`DevNeighbours`). Algorithms on sequence numbers are written once over an `Arith`: `Mod32` is what
the code computes, `Exact` the same on stream positions that never wrap; lemmas named `...Wrap`
show that the first is the image of the second while the numbers that are compared lie in half of
the number space.

Some of what one would expect is not so, and is stated as it is, with a concrete history and the
exact condition:

* The reorder module delivers segments in sequence order if and only if none arrives out of order
  while more than ten wait (`ReorderOrder.DeliversInOrderIff`), which takes at least 13 segments
  (`ReorderOrder.TwelveDeliver`, `ReorderOrder.ThirteenOverflow`). A packet without payload
  flushes the queue, so that it must come last (`ReorderFate.DeliversFinIff`).
* Packets leave a GRO queue in rising order always, but without overlaps if and only if no packet
  joins the one it follows and then runs into the next one (`GroOrder.RunKeeps`,
  `GroOrder.ClashHappens`).
* Steering keeps a packet in front of the later ones of its table entry if and only if the entry
  has a CPU when the packet is routed (`Rps.InOrder`, `Rps.OrderedIff`, `Rps.UnroutedOvertaken`).
* What is stored in a buffer reads back if and only if no two bytes of the range are kept in one
  place (`SkbCells.ReadsBackIff`, `SkbCells.StoreWritesIff`, `SkbCells.AliasedStore`).
* The 32-bit sums of skb_checksum depend on the layout; what they fold to does not
  (`SkbChecksum.SumBytes`, `SkbChecksum.SumsDependOnLayout`).
* With one sending port, an unstopped transmit queue accepts every packet if and only if no send
  stops the queue between the test for room of the interrupt handler and its wake
  (`Nf10.SoloHasRoomIff`, `Nf10.LateWakeRefuses`); with two ports it may refuse in any case
  (`Nf10.SecondPortIsRefused`).
* No transmit completion is lost if and only if the handler clears no mark of a slot that was
  reserved, posted and completed again after it returned the slot (`Nf10Ring.NoneLostIff`,
  `Nf10Ring.LostHistoryLoses`).

`dafny verify dfyconfig.toml` checks everything.

## Model

| member | source | states |
|---|---|---|
| Serial.DiffInWindow | kernel_modules/reorder_fedora_advanced/reorder_queue.c:112-117 | the signed 32-bit difference of two numbers decides like the subtraction of stream positions while these lie in one half window (section 3.4 of RFC 9293) |
| Serial.HalfWindowIsTight | kernel_modules/reorder_fedora_advanced/reorder_queue.c:112-117 | exactly half the number space apart, the sign of the difference is wrong: the window cannot be larger |
| Reorder.StepAccounts | kernel_modules/reorder_fedora_advanced/reorder_queue.c:72-230 | one packet or timer expiration, on any 32-bit numbers: reinjected plus held grows by exactly the packet, at most 11 are held, nothing reinjected is taken back |
| Reorder.RunAccounts | kernel_modules/reorder_fedora_advanced/reorder_queue.c:45-230 | over every history, received packets are exactly those reinjected plus those held |
| Reorder.StepInv | kernel_modules/reorder_fedora_advanced/reorder_queue.c:72-230 | the queue stays sorted with disjoint ranges and starts at or behind seq_next, and seq_next does not go back except at a SYN |
| Reorder.RunInv | kernel_modules/reorder_fedora_advanced/reorder_queue.c:72-230 | the same invariant in every reachable state, timer flushes included |
| Reorder.DrainInv | kernel_modules/reorder_fedora_advanced/reorder_queue.c:117-135 | after draining, the queue starts behind seq_next |
| Reorder.FlushInv | kernel_modules/reorder_fedora_advanced/reorder_queue.c:45-60 | flushing any prefix keeps the invariant and does not move seq_next back |
| Reorder.StepWrap | kernel_modules/reorder_fedora_advanced/reorder_queue.c:72-230 | the 32-bit code on wrapped numbers does the image of what the algorithm does on positions |
| Reorder.RunWrap | kernel_modules/reorder_fedora_advanced/reorder_queue.c:72-230 | the same over whole histories, however often the numbers wrap |
| ReorderOrder.ArrivalDelivers | kernel_modules/reorder_fedora_advanced/reorder_queue.c:112-224 | the arrival of one more segment, with no overflow: everything before the first missing one has been delivered in order, everything else that came is held sorted |
| ReorderOrder.PrefixDelivers | kernel_modules/reorder_fedora_advanced/reorder_queue.c:112-224 | the 32-bit state after any prefix of an arrival order without overflow |
| ReorderOrder.OverflowMisorders | kernel_modules/reorder_fedora_advanced/reorder_queue.c:139-145 | an arrival that finds more than 10 waiting makes the delivery differ from sequence order for good |
| ReorderOrder.DeliversInOrderIff | kernel_modules/reorder_fedora_advanced/reorder_queue.c:92-224 | after a SYN, for every arrival order of contiguous segments, also across 2^32: delivery is in sequence order if and only if no segment arrives out of order while more than 10 wait |
| ReorderOrder.RoomDelivers | kernel_modules/reorder_fedora_advanced/reorder_queue.c:92-224 | if no arrival overflows, the 32-bit handler ends with every segment delivered in sequence order, none held and seq_next at the end |
| ReorderOrder.TwelveDeliver | kernel_modules/reorder_fedora_advanced/reorder_queue.c:137-145 | at most 12 segments are delivered in sequence order, whatever order they arrive in |
| ReorderOrder.OverflowNeedsThirteen | kernel_modules/reorder_fedora_advanced/reorder_queue.c:137-145 | an overflow takes the missing segment, eleven waiting ones and the arriving one: 13 in all |
| ReorderOrder.ThirteenOverflow | kernel_modules/reorder_fedora_advanced/reorder_queue.c:137-145 | the bound is tight: from 13 segments on, the order that leaves the first for the end overflows |
| ReorderFate.EmptyFollowsAll | kernel_modules/reorder_fedora_advanced/reorder_queue.c:92-109 | a SYN or a packet without payload is reinjected behind everything held, nothing stays held, and seq_next is the number behind the SYN, or the later of the end of what was held and of this packet |
| ReorderFate.OldPasses | kernel_modules/reorder_fedora_advanced/reorder_queue.c:112-115 | data that ends at or before seq_next is reinjected at once and nothing else changes |
| ReorderFate.NextDrains | kernel_modules/reorder_fedora_advanced/reorder_queue.c:117-135 | data that reaches over seq_next is reinjected, and behind it exactly the held packets that continue the stream without a gap |
| ReorderFate.GapHolds | kernel_modules/reorder_fedora_advanced/reorder_queue.c:137-226 | data beyond a gap: a full queue leaves in front of it; if it overlaps a held packet, exactly those that start before its end leave in front of it; otherwise it is held at its place and nothing leaves |
| ReorderFate.TimeoutIs | kernel_modules/reorder_fedora_advanced/reorder_queue.c:62-70 | the timer reinjects everything held in order |
| ReorderFate.DeliversFinIff | kernel_modules/reorder_fedora_advanced/reorder_queue.c:92-224 | after a SYN, with a packet without payload at the end of the stream arriving anywhere among the segments: delivery is in sequence order if and only if it comes last and no segment arrives out of order while more than 10 wait |
| ReorderQueue.ReorderList.FlushReorderQueue | kernel_modules/reorder_fedora_advanced/reorder_queue.c:45-60 | the pointer code accepts and frees exactly the nodes in front of `stop`; list, counter and seq_next are those of the prefix flush |
| ReorderQueue.ReorderList.HrtimerCallback | kernel_modules/reorder_fedora_advanced/reorder_queue.c:62-70 | the timer flushes everything |
| ReorderQueue.ReorderList.DrainInSequence | kernel_modules/reorder_fedora_advanced/reorder_queue.c:122-135 | the draining loop computes Drain |
| ReorderQueue.ReorderList.FindSlot | kernel_modules/reorder_fedora_advanced/reorder_queue.c:160-167 | the search loop finds the first node that starts at or behind the end of the packet, and the one in front of it |
| ReorderQueue.ReorderList.LinkBefore | kernel_modules/reorder_fedora_advanced/reorder_queue.c:147-224 | the four ways of linking a node insert the packet at its place and keep the list doubly linked |
| ReorderQueue.ReorderList.HoldPacket | kernel_modules/reorder_fedora_advanced/reorder_queue.c:146-225 | holding a packet, or flushing up to its place when it overlaps |
| ReorderQueue.ReorderList.EnqueueGapPacket | kernel_modules/reorder_fedora_advanced/reorder_queue.c:137-226 | the branch for packets that leave a gap |
| ReorderQueue.ReorderList.EnqueuePacket | kernel_modules/reorder_fedora_advanced/reorder_queue.c:72-230 | the whole handler computes one step on 32-bit numbers and leaves a well-formed list with its exact count |
| SkbCopy.CopyBits | linux-3.18.5/net/core/skbuff.c:1592-1663 | succeeds if and only if the range ends in the buffer, and then copies exactly that slice of the flat bytes, through linear part, fragments and nested frag_lists; a negative offset reads the bytes in front of the data |
| SkbCopy.CopyFrags | linux-3.18.5/net/core/skbuff.c:1609-1634 | the fragment loop |
| SkbCopy.CopyList | linux-3.18.5/net/core/skbuff.c:1636-1655 | the frag_list loop with its recursion |
| SkbCells.LastWriterWins | linux-3.18.5/net/core/skbuff.c:1881-1950 | for every layout, also where fragments share page bytes: a flat byte becomes the last byte written to the place it is kept in, and stays if none is |
| SkbCells.StoreWritesIff | linux-3.18.5/net/core/skbuff.c:1881-1950 | whatever is stored replaces exactly the flat bytes of the range, if and only if no byte of the range shares its place with another byte of the buffer |
| SkbCells.ReadsBackIff | linux-3.18.5/net/core/skbuff.c:1592-1663 | whatever is stored reads back, if and only if no two bytes of the range are kept in one place |
| SkbCells.AliasedStore | linux-3.18.5/net/core/skbuff.c:1900-1924 | the input where it does not: two fragments on one page byte both show the second byte stored |
| SkbCells.StoreTouchesOnly | linux-3.18.5/net/core/skbuff.c:1881-1950 | no page byte changes but those the range is kept in |
| SkbCells.StoreIsWriting | linux-3.18.5/net/core/skbuff.c:1881-1950 | writing chunk by chunk through the layout is writing byte after byte to the cells of the range; lengths, fragments and the other linear bytes stay |
| SkbStore.StoreBits | linux-3.18.5/net/core/skbuff.c:1881-1950 | all or nothing, for every offset: the share in front of the data goes there, and the rest is the write described above |
| SkbStore.StoreInFrags | linux-3.18.5/net/core/skbuff.c:1900-1924 | the fragment loop |
| SkbStore.StoreInList | linux-3.18.5/net/core/skbuff.c:1926-1944 | the frag_list loop |
| SkbChecksum.Checksum | linux-3.18.5/net/core/skbuff.c:1954-2022 | the code computes Summed, also from an offset in front of the data |
| SkbChecksum.SummedMeaning | linux-3.18.5/net/core/skbuff.c:1954-2022 | for any update and combine that obey the split law up to an equivalence, the result is, up to it, the checksum of the slice of the flat bytes, wherever the layout cuts them |
| SkbChecksum.CsumObeysSplitLaw | linux-3.18.5/net/core/skbuff.c:2025-2036 | 32-bit sums with end-around carry, chunks at odd positions swapped (section 2 of RFC 1071), obey the split law up to what folding to 16 bits sees, for any csum_partial that adds the words |
| SkbChecksum.SumBytes | linux-3.18.5/net/core/skbuff.c:2025-2036 | skb_checksum: the folded sum is that of the flat bytes of the range and of their 16-bit words |
| SkbChecksum.FoldAlike | linux-3.18.5/net/core/skbuff.c:2025-2036 | two 32-bit sums fold to the same 16 bits if and only if they agree modulo 65535 and in being zero |
| SkbChecksum.SumsDependOnLayout | linux-3.18.5/net/core/skbuff.c:1983-1986 | the 32-bit sums themselves do depend on the layout: two buffers with the same flat bytes and different sums |
| SkbLayout.PullTailKeeps | linux-3.18.5/net/core/skbuff.c:1460-1574 | the flat bytes stay, the linear part grows by exactly the first delta paged bytes, and the length stays |
| SkBuff.Buffer.PullTail | linux-3.18.5/net/core/skbuff.c:1460-1574 | the code on the fragment array: succeeds if and only if none of the places fails that have to allocate, and then moves delta bytes; the flat bytes stay either way, len and data_len follow the layout |
| SkBuff.Buffer.PullPages | linux-3.18.5/net/core/skbuff.c:1549-1568 | the compaction loop over the fragment array |
| SkBuff.Buffer.ExcessOverFrags | linux-3.18.5/net/core/skbuff.c:1483-1491 | how much of the pull reaches the frag_list |
| SkBuff.PullList | linux-3.18.5/net/core/skbuff.c:1500-1546 | whole members are eaten, then part of one; fails if and only if a place that has to allocate does, and leaves the list as it was |
| SkBuff.PskbPull | linux-3.18.5/net/core/skbuff.c:1516-1531 | pulling the partly eaten member, cloned first when shared; fails if and only if an allocation does |
| SkBuff.PullSitesAre | linux-3.18.5/net/core/skbuff.c:1460-1546 | which places of a pull may have to allocate: the buffer, and, if the pull ends inside a list member, that member and what its own pull needs; members eaten as a whole need nothing |
| SkBuff.SitesInside | linux-3.18.5/net/core/skbuff.c:1352-1491 | a pull or trim that ends inside the fragments concerns the buffer itself only |
| SkbLayout.TrimFlat | linux-3.18.5/net/core/skbuff.c:1352-1432 | what is left are exactly the first bytes of the buffer |
| SkbLayout.TrimLen | linux-3.18.5/net/core/skbuff.c:1352-1432 | the length is what was asked for |
| SkBuff.Buffer.Trim | linux-3.18.5/net/core/skbuff.c:1352-1432 | the code: succeeds if and only if none of the places fails that have to allocate (the header of a cloned buffer, shared or cloned list members), and then leaves exactly the first n bytes, len and data_len consistent |
| SkBuff.Buffer.TrimPages | linux-3.18.5/net/core/skbuff.c:1366-1388 | the fragment loop of the trim |
| SkBuff.TrimList | linux-3.18.5/net/core/skbuff.c:1390-1419 | the frag_list loop; fails if and only if a place that has to allocate does, and leaves the bytes of the list as they were |
| SkBuff.TrimListSitesAre | linux-3.18.5/net/core/skbuff.c:1390-1416 | which list members of a trim may have to allocate: each one up to the cut, and the pages of the one that is cut |
| SkBuffMove.SplitCuts | linux-3.18.5/net/core/skbuff.c:2402-2479 | the two halves are the bytes before and from the cut, nothing lost or duplicated |
| SkBuffMove.SplitAgrees | linux-3.18.5/net/core/skbuff.c:2423-2462 | splitting cuts the fragments where trimming and pulling do; they differ in empty fragments only |
| SkBuffMove.ShiftAgrees | linux-3.18.5/net/core/skbuff.c:2560-2603 | so does shifting |
| SkBuffMove.SplitPages | linux-3.18.5/net/core/skbuff.c:2423-2462 | the fragment loop of the split |
| SkBuffMove.SplitInsideHeader | linux-3.18.5/net/core/skbuff.c:2402-2421 | a cut inside the linear part |
| SkBuffMove.Split | linux-3.18.5/net/core/skbuff.c:2470-2479 | the code on two buffers with their counters; the flat bytes of the two are those before and from the cut |
| SkBuffMove.ShiftMoves | linux-3.18.5/net/core/skbuff.c:2509-2623 | exactly the first n bytes move to the end of the target, also when the first fragment continues its last one |
| SkBuffMove.MoveFrags | linux-3.18.5/net/core/skbuff.c:2560-2586 | the moving loop: succeeds if and only if the fragments to move fit behind those of the target, and leaves no trace in the counted fragments when not |
| SkBuffMove.CommitShift | linux-3.18.5/net/core/skbuff.c:2588-2603 | the commit: moved fragments are counted in, the remaining ones close up |
| SkBuffMove.Shift | linux-3.18.5/net/core/skbuff.c:2509-2623 | moves exactly the first n bytes if both buffers can be written to and either these bytes continue the last fragment or they pass the early test and fit; otherwise 0, with both buffers as they were |
| SkBuffMove.ShiftableIff | linux-3.18.5/net/core/skbuff.c:2509-2603 | without empty fragments: bytes can be moved if and only if the fewest fragments that hold them fit behind those of the target, the first taking no place when it continues the last one of the target, and then they take exactly these places |
| SkBuffMove.EarlyTestIsExact | linux-3.18.5/net/core/skbuff.c:2552-2555 | without empty fragments the early test refuses only what does not fit |
| SkBuffMove.EarlyTestRefusesMore | linux-3.18.5/net/core/skbuff.c:2552-2555 | with an empty fragment at the end it refuses what would fit: a concrete input |
| SkbSegment.SlicesMeaning | linux-3.18.5/net/core/skbuff.c:2917-3084 | ceil(payload / mss) pieces, all but the last of mss bytes, that put together are the payload |
| SkbSegment.SlicesOfConcat | linux-3.18.5/net/core/skbuff.c:2917-3084 | cutting undoes putting together |
| SkbSegment.SegmentFrags | linux-3.18.5/net/core/skbuff.c:3023-3071 | the fragment loop of one segment covers exactly its bytes and never needs more fragments than fit |
| SkbSegment.OneSegment | linux-3.18.5/net/core/skbuff.c:2917-3084 | one segment: headers and its piece of the payload |
| SkbSegment.Segment | linux-3.18.5/net/core/skbuff.c:2883-3096 | skb_segment on a buffer without frag_list: as many segments as slices, each the headers followed by its slice; with scatter-gather exactly the linear payload bytes are copied, each once, and without it no segment has fragments |
| SkbGro.MergeMeaning | linux-3.18.5/net/core/skbuff.c:3146-3227 | merging appends exactly the payload of the second packet to the first |
| SkbGro.MergeShape | linux-3.18.5/net/core/skbuff.c:3146-3227 | lengths add up, the headers of the first stay, fragments only grow |
| SkbGro.TooBigStays | linux-3.18.5/net/core/skbuff.c:3154-3165 | once refused for size, a pair is also refused when either packet has grown |
| SkbGro.MergedIff | linux-3.18.5/net/core/skbuff.c:3154-3211 | a pair is merged if and only if the second payload can be referred to as page fragments and the result has less than 65536 bytes and at most 17 fragments |
| SkbGro.GroMerge | linux-3.18.5/net/core/skbuff.c:3146-3227 | the code on the fragment arrays: merged, too big or invalid as described, nothing changed on a refusal |
| SkbGro.MergeAllMeaning | linux-3.18.5/net/core/skbuff.c:3146-3227 | merging a row of packets concatenates their payloads |
| SkbGro.AllMergedIff | linux-3.18.5/net/core/skbuff.c:3146-3227 | a row of packets is merged if and only if all payloads can be referred to as fragments and their sum is within the limits of one packet |
| SkbGro.NumberSegments | linux-3.18.5/net/ipv4/tcp_offload.c:122-152 | the header loop: sequence number of segment k is seq + k*mss modulo 2^32, FIN and PSH only on the last, CWR only on the first |
| SkbGro.TcpGsoSegment | linux-3.18.5/net/ipv4/tcp_offload.c:60-165 | segmentation with the header loop: only packets longer than mss are segmented, and then there is one segment for each slice, headers in front; its number is where the segment before it ends, FIN and PSH are on the last one and CWR on the first |
| SkbGro.SegmentationUndoesMerging | linux-3.18.5/net/ipv4/tcp_offload.c:115-152 | segmenting a merge of consecutive equal packets (the last one possibly shorter) gives back their payloads and sequence numbers |
| SkbGro.GsoUndoesGro | linux-3.18.5/net/ipv4/tcp_offload.c:60-165 | whatever segments and headers the segmentation of such a merge returns: as many as packets were merged, each the headers with the payload of its packet, and with its sequence number |
| GroOrder.StepKeeps | linux-3.18.5/net/ipv4/tcp_offload.c:315-580 | one packet, timed flush or eviction: the queue stays sorted and disjoint, neighbours touch only when merging them is refused for size, what has left only grows, and it overlaps exactly after a clash |
| GroOrder.RunKeeps | linux-3.18.5/net/ipv4/tcp_offload.c:315-580 | over the whole life of a queue: packets leave it in strictly rising order, and without overlaps if and only if no arrival clashes with the queue it finds |
| GroOrder.ClashHappens | linux-3.18.5/net/ipv4/tcp_offload.c:541-544 | a concrete history in which two overlapping packets leave the queue: the packet that joined one and ran into the next |
| GroOrder.WalkKeeps | linux-3.18.5/net/ipv4/tcp_offload.c:325-580 | the loop of tcp_gro_receive over all its branches |
| GroOrder.JoinLeftKeeps | linux-3.18.5/net/ipv4/tcp_offload.c:365-435 | a packet that ends where another begins |
| GroOrder.BridgeKeeps | linux-3.18.5/net/ipv4/tcp_offload.c:486-549 | a packet that follows one and touches, bridges to or overlaps the next |
| GroOrder.CompleteKeeps | linux-3.18.5/net/core/dev.c:3910-3984 | a flush removes a prefix in order; a timed flush leaves only packets younger than the timeout, the first starting behind seq_next |
| GroOrder.FlushThroughKeeps | linux-3.18.5/net/core/skbuff.c:3099-3132 | skb_gro_flush removes a prefix and moves seq_next to its end |
| GroFate.PlaceExists | linux-3.18.5/net/ipv4/tcp_offload.c:319-580 | every packet has a place among the held ones |
| GroFate.JoinedIff | linux-3.18.5/net/core/skbuff.c:3146-3227 | two packets of the queue that touch are joined if and only if the payload of the second can be referred to as fragments and the result is within the limits |
| GroFate.GapIsHeld | linux-3.18.5/net/ipv4/tcp_offload.c:343-364 | a packet that neither touches nor overlaps a held one is held at its place; nothing leaves, or everything if it is shorter than a segment |
| GroFate.JoinsLeft | linux-3.18.5/net/ipv4/tcp_offload.c:436-549 | a packet that follows a held one and may be merged with it joins it, with each of the five outcomes at the next held packet |
| GroFate.JoinsRight | linux-3.18.5/net/ipv4/tcp_offload.c:365-435 | a packet followed by a held one, and not merged with one in front, joins that one |
| GroFate.StaysApart | linux-3.18.5/net/ipv4/tcp_offload.c:365-580 | a packet too big to be merged is held by itself, and what is in sequence up to it leaves |
| GroFate.RefusedIff | linux-3.18.5/net/ipv4/tcp_offload.c:365-602 | a packet that gets to the queue is passed up if and only if the one it follows is of the wrong shape, or, not merged, it overlaps the next one, or touches it and that is of the wrong shape or too big while the stream is complete up to the packet |
| GroFate.RefusalCompletes | linux-3.18.5/net/ipv4/tcp_offload.c:365-602 | what a refusal completes: everything up to the packet of the wrong shape or size, or the whole queue |
| GroFate.PassesBy | linux-3.18.5/net/ipv4/tcp_offload.c:269-318 | a packet that does not get to the queue is passed up, and completes it unless it only comes too late |
| GroFate.FirstPacket | linux-3.18.5/net/core/dev.c:4231-4320 | the first packet is held and sets the segment size, unless the network layer marks it, it has no payload or starts before seq_next |
| GroTimeout.CompletesLeast | linux-3.18.5/net/core/dev.c:3910-3984 | a flush completes the shortest prefix behind which all packets are younger than the timeout and the first one starts beyond what has been completed, in order, and moves seq_next to the end of it |
| GroTimeout.UnchangedIff | linux-3.18.5/net/core/dev.c:3910-3984 | a timed flush leaves a queue as it is if and only if all its packets are young and the first starts beyond seq_next |
| GroMeaning.MergeCarries | linux-3.18.5/net/core/skbuff.c:3146-3227 | merging neighbours that carry the stream gives a packet that carries the stream |
| GroMeaning.WalkAccounts | linux-3.18.5/net/ipv4/tcp_offload.c:325-580 | every branch of the loop: each stream position is covered once more than before if the packet was held, and what is held carries the stream |
| GroMeaning.StepAccounts | linux-3.18.5/net/ipv4/tcp_offload.c:315-580 | one event: held, completed and passed up cover each position as often as it was received, all slices of the stream |
| GroMeaning.RunAccounts | linux-3.18.5/net/ipv4/tcp_offload.c:315-580 | the same over every history |
| GroWrap.WalkWrap | linux-3.18.5/net/ipv4/tcp_offload.c:325-580 | the loop on 32-bit numbers, with its equality tests, is the image of the loop on positions |
| GroWrap.StepWrap | linux-3.18.5/net/ipv4/tcp_offload.c:315-580 | one event on 32-bit numbers |
| GroWrap.RunWrap | linux-3.18.5/net/ipv4/tcp_offload.c:315-580 | whole histories on 32-bit numbers, however often they wrap |
| GroWrap.RunWrapOrdered | linux-3.18.5/net/ipv4/tcp_offload.c:315-580 | what leaves the 32-bit queue is the image of packets in rising order, disjoint exactly without clashes |
| GroWrap.RunWrapAccounts | linux-3.18.5/net/ipv4/tcp_offload.c:315-580 | what is in the 32-bit queue and what has left it are the images of packets that carry the stream and cover each position as often as it was received |
| GroList.FlowQueue.InsertBefore | linux-3.18.5/net/ipv4/tcp_offload.c:343-364 | insertion in front of a node, also at the head, where the slot in the list of flows follows |
| GroList.FlowQueue.TakePlace | linux-3.18.5/net/ipv4/tcp_offload.c:411-434 | the new packet takes the place of the one merged into it |
| GroList.FlowQueue.TakeNext | linux-3.18.5/net/ipv4/tcp_offload.c:525-540 | a packet takes in its successor, which is unlinked |
| GroList.FlowQueue.Append | linux-3.18.5/net/ipv4/tcp_offload.c:551-568 | insertion at the tail |
| GroList.FlowQueue.SkbGroFlush | linux-3.18.5/net/core/skbuff.c:3099-3137 | the flush loop on the list, with qlen, skb_num and seq_next |
| GroList.FlowQueue.FirstYoung | linux-3.18.5/net/core/dev.c:3921-3931 | the backward scan finds the run of young packets at the end |
| GroList.FlowQueue.CompleteBefore | linux-3.18.5/net/core/dev.c:3933-3946 | the first completion loop |
| GroList.FlowQueue.CompleteInSequence | linux-3.18.5/net/core/dev.c:3948-3962 | the second completion loop |
| GroList.FlowQueue.DevGroComplete | linux-3.18.5/net/core/dev.c:3910-3984 | the whole completion on the list |
| GroList.FlowQueue.RefuseAt | linux-3.18.5/net/ipv4/tcp_offload.c:391-404 | a packet that cannot be merged: the list up to its neighbour leaves |
| GroList.FlowQueue.MeetLeft | linux-3.18.5/net/ipv4/tcp_offload.c:365-435 | the branch for a packet that ends where a node begins |
| GroList.FlowQueue.MeetRight | linux-3.18.5/net/ipv4/tcp_offload.c:486-549 | the branch for a packet that was merged behind a node |
| GroList.FlowQueue.WalkQueue | linux-3.18.5/net/ipv4/tcp_offload.c:319-580 | the loop on the linked list computes Walk on 32-bit numbers and leaves a well-formed list with exact qlen and skb_num whose head is in the slot |
| GroList.FlowQueue.TcpGroReceive | linux-3.18.5/net/ipv4/tcp_offload.c:247-602 | with the tests in front of the loop |
| GroList.FlowQueue.OpenQueue | linux-3.18.5/net/core/dev.c:4231-4320 | the first packet of a flow, which is passed up when the network layer marks it for flushing |
| GroList.FlowQueue.DevGroReceive | linux-3.18.5/net/core/dev.c:4216-4354 | what dev_gro_receive makes of it: one step of the flow |
| GroList.FlowQueue.FlushOld | linux-3.18.5/net/core/dev.c:4036-4053 | what a timed flush makes of one flow |
| GroPool.PartitionDistinct | linux-3.18.5/net/core/dev.c:4801-4819 | no queue is in two places |
| GroPool.PartitionSizes | linux-3.18.5/net/core/dev.c:4801-4819 | pool and list together hold the nine queues |
| GroPool.NewLifeHolds | linux-3.18.5/net/core/dev.c:4288-4320 | a queue that starts a new life holds the first packet with payload, whatever its number |
| GroPool.Napi.constructor | linux-3.18.5/net/core/dev.c:4801-4819 | the nine queues start in the pool |
| GroPool.Napi.GetQueue | linux-3.18.5/net/core/dev.c:4134-4152 | there is always a queue to give: the one that served the hash, or the oldest one, reset |
| GroPool.Napi.EvictLast | linux-3.18.5/net/core/dev.c:4322-4332 | too many flows: the oldest one goes back to the pool with everything completed |
| GroPool.Napi.ReceiveFirst | linux-3.18.5/net/core/dev.c:4231-4335 | a packet without an entry: its queue, the new list, and at most one eviction |
| GroPool.Napi.Feed | linux-3.18.5/net/core/dev.c:4216-4229 | an event for an entry, which loses its place exactly when nothing is left |
| GroPool.Napi.DevGroReceive | linux-3.18.5/net/core/dev.c:4155-4345 | every packet becomes one event of exactly one queue: that of its flow, which keeps its place unless nothing is left, or a pooled one, which comes to the front of the list if it holds the packet, and then only the last of 8 flows is evicted; every queue stays in the pool or in exactly one entry, gro_count is the length of the list |
| GroPool.Napi.NapiGroFlush | linux-3.18.5/net/core/dev.c:4007-4062 | each flow from the oldest on goes through one timed flush, survivors keep their order, the others are back in the pool |
| Rps.StepKeeps | linux-3.18.5/net/core/dev.c:3047-3173 | every atomic step keeps the invariant of counters, entries and backlogs |
| Rps.MayMoveMeansDone | linux-3.18.5/net/core/dev.c:3149-3163 | an entry moves only when none of its packets is unfinished, although head and tail are compared as 32-bit words that wrap |
| Rps.InOrder | linux-3.18.5/net/core/dev.c:3140-3173 | in every interleaving, a packet that a table entry routed finishes protocol processing before every packet of the entry that arrived later |
| Rps.OrderedIff | linux-3.18.5/net/core/dev.c:3140-3173 | from every reachable state with room on the fallback CPU and a second CPU: no interleaving lets a later packet of the entry overtake the one just received, if and only if the entry has a CPU after the test |
| Rps.StepYoung | linux-3.18.5/net/core/dev.c:3140-3173 | no step leaves an unfinished packet of an entry behind a later one |
| Rps.RunYoung | linux-3.18.5/net/core/dev.c:3140-3173 | the same over every interleaving |
| Rps.StepAccounts | linux-3.18.5/net/core/dev.c:3303-3344 | what is queued or finished stays so, and only enqueued packets join it |
| Rps.UnroutedOvertaken | linux-3.18.5/net/core/dev.c:3165-3173 | a concrete interleaving in which a packet that arrived while its entry had no CPU is overtaken |
| RpsMoves.MovesIff | linux-3.18.5/net/core/dev.c:3149-3166 | after a packet of an entry is put on the backlog of its CPU: a reader on another CPU takes the entry with it if and only if that CPU has finished and counted everything up to the packet; otherwise entry and packets stay |
| RpsMoves.MovesOn | linux-3.18.5/net/core/dev.c:3047-3089 | an entry that has moved to a CPU without sending it a packet moves on at once |
| RpsMoves.Settles | linux-3.18.5/net/core/dev.c:3149-3173 | an entry without a CPU takes that of the reader, or the packet takes the fallback; an entry that is where the reader is stays |
| RpsMoves.RunServes | linux-3.18.5/net/core/dev.c:4583-4637 | in every interleaving a CPU finishes its line in order, and its head counter says how much of it |
| Rps.Receiver.SetRpsCpu | linux-3.18.5/net/core/dev.c:3047-3089 | the entry takes the new CPU and the head of its queue |
| Rps.Receiver.GetRpsCpu | linux-3.18.5/net/core/dev.c:3140-3173 | the decision code is the steering step |
| Rps.Receiver.EnqueueToBacklog | linux-3.18.5/net/core/dev.c:3303-3344 | the enqueue code, with its limit and the tail saved in the entry |
| Rps.Receiver.ProcessOne | linux-3.18.5/net/core/dev.c:4602-4611 | one packet is dequeued, processed and counted |
| Rps.Receiver.ProcessBacklog | linux-3.18.5/net/core/dev.c:4583-4637 | the two nested loops are a run of steps of this CPU; less than the quota means both queues are empty |
| Nf10Ring.StepKeeps | experiments/switch/driver/nf10priv.c:83-227 | every step of senders, card and handler, which takes lines and slot back and clears the mark one after the other, keeps counts, places, books and completion marks consistent |
| Nf10Ring.RunKeeps | experiments/switch/driver/nf10priv.c:83-260 | in every interleaving of these steps, buffers are freed in the order in which they were accepted, each once |
| Nf10Ring.RegionsDisjoint | experiments/switch/driver/nf10priv.c:104-108 | packets under way use different lines of the packet buffer, modulo its size |
| Nf10Ring.SlotsDistinct | experiments/switch/driver/nf10priv.c:107-108 | no bookkeeping slot is reused before its packet is done |
| Nf10Ring.TakeFinds | experiments/switch/driver/nf10priv.c:208-217 | a completion at the read pointer is that of the oldest packet, and the books read are its own |
| Nf10Ring.StepAccounts | experiments/switch/driver/nf10priv.c:83-260 | one step frees only the oldest packet and loses none |
| Nf10Ring.NoneLostIff | experiments/switch/driver/nf10priv.c:223-227 | no completion is lost if and only if the handler never clears the mark of a slot that was reserved, posted and completed again since it returned the slot |
| Nf10Ring.LostForGood | experiments/switch/driver/nf10priv.c:208-227 | a packet whose completion is lost never leaves the ring, and none behind it is taken back |
| Nf10Ring.LostHistoryLoses | experiments/switch/driver/nf10priv.c:223-227 | a history from the empty ring in which a completion is lost |
| Nf10Wake.ReservedIff | experiments/switch/driver/nf10priv.c:94-108 | a packet is accepted if and only if fewer than 32 are under way and its lines fit beside theirs |
| Nf10Wake.SendStopsIff | experiments/switch/driver/nf10priv.c:94-134 | a packet sent without interruption stops its queue if and only if another one of any size might not fit |
| Nf10Wake.PassIs | experiments/switch/driver/nf10priv.c:205-239 | one pass of the handler takes back the oldest packet if and only if that is complete, and wakes all queues if and only if then 8 slots and the lines of 4 packets are free |
| Nf10Wake.Stations | experiments/switch/driver/nf10priv.c:158-167 | the stations of a packet: its books are written at its slot, it is posted, and when the card has completed all before it, its completion is marked |
| Nf10Wake.TestsSee | experiments/switch/driver/nf10priv.c:118-119 | the tests of the handler see the counters in memory, which lag behind a sender in progress by its slot and its lines |
| Nf10Wake.NeverAsleep | experiments/switch/driver/nf10priv.c:98-239 | any ports, every interleaving: when the handler rests and a queue is stopped, a packet is under way, whose completion brings the handler back |
| Nf10.TxRoomAtAnyAlignment | experiments/switch/driver/nf10priv.c:90 | the lines reserved hold the packet behind any offset of its data |
| Nf10.RxRoomAtAnyAlignment | experiments/switch/driver/nf10priv.c:357 | the lines of a receive buffer suffice, with nothing to spare |
| Nf10.RxDescriptors | experiments/switch/driver/nf10priv.c:365-385 | at most 21 receive descriptors are out; the packet buffer is the limit |
| Nf10.SoloHasRoomIff | experiments/switch/driver/nf10priv.c:98-134 | with one sending port: the queue has room for any packet in every state in which it is not stopped, if and only if the handler never wakes it after a send has stopped it since the test of the handler |
| Nf10.SoloNeverRefused | experiments/switch/driver/nf10priv.c:98-134 | in every interleaving without such a wake, a sending queue that is not stopped accepts a packet of at most 1514 bytes |
| Nf10.LateWakeRefuses | experiments/switch/driver/nf10priv.c:230-235 | the history in which it does, on any port alone: a full ring with the queue awake refuses packets |
| Nf10.SecondPortIsRefused | experiments/switch/driver/nf10priv.c:122-134 | any two ports: one fills the ring, and the other, not stopped, is refused |
| Nf10.Card.Reserve | experiments/switch/driver/nf10priv.c:94-139 | the code under tx_lock is the run of the steps of a sender |
| Nf10.Card.Bookkeep | experiments/switch/driver/nf10priv.c:158-161 | the books are written at the slot of the packet |
| Nf10.Card.CleanTx | experiments/switch/driver/nf10priv.c:208-239 | the code that takes a completion back, tests for room and wakes the queues is the run of its steps, with other senders before the mark is cleared and between test and wake |
| Nf10Work.WorkHandler | experiments/switch/driver/nf10priv.c:189-347 | the loop ends; interrupts are on, the last pass was made with them on and found both rings empty, every completion was taken exactly once or is still there, and an interrupt is raised if and only if one arrived in the last pass |
| PageFrag.StepKeeps | linux-3.18.5/net/core/skbuff.c:340-394 | every operation of the allocator and of its users keeps the invariant |
| PageFrag.FragmentsAreSafe | linux-3.18.5/net/core/skbuff.c:340-394 | in every interleaving: references held by users are the page count less the bias, no page with a live fragment is free, different fragments do not overlap |
| PageFrag.UnusedBeforeReset | linux-3.18.5/net/core/skbuff.c:372-386 | a page is used again from offset 0 only when none of its fragments is live |
| PageFrag.CarveKeeps | linux-3.18.5/net/core/skbuff.c:388-390 | a new fragment lies behind all live ones of its page |
| PageFrag.FreedIff | linux-3.18.5/net/core/skbuff.c:372-390 | in every interleaving a page is freed if and only if neither a user nor the allocator refers to it: nothing leaks |
| PageFrag.ReusedIff | linux-3.18.5/net/core/skbuff.c:372-386 | a used-up page is used again from its start if and only if no user refers to it at the first look at its count or at the second |
| PageFrag.AllocCache.TakePage | linux-3.18.5/net/core/skbuff.c:348-370 | the refill loop takes the page of the greatest order to be had, and fails only when there is none |
| PageFrag.AllocCache.MakeRoom | linux-3.18.5/net/core/skbuff.c:372-386 | the three ways to make room |
| PageFrag.AllocCache.NetdevAllocFrag | linux-3.18.5/net/core/skbuff.c:340-394 | the code is a run of the steps: a request that fits gets the bytes at the offset; one that does not gets the start of the same page if nobody else refers to it, or else of that or a new one; it fails only when no page can be had |
| DevGraph.UnlinkUndoesEstablish | linux-3.18.5/net/core/dev.c:5623-5649 | unlinking two devices right after linking them leaves every list, count and hold as it was |
| DevGraph.UnlinkAllUndoes | linux-3.18.5/net/core/dev.c:5534-5569 | links undone first link first, from under later links of other pairs |
| DevGraph.RemoveUndoesInsert | linux-3.18.5/net/core/dev.c:5300-5390 | removing an entry undoes inserting it, with order, counts and holds |
| DevClosure.ListsAreTheClosure | linux-3.18.5/net/core/dev.c:5471-5532 | after any history of attempts to link, with the tests made first: upper lists are exactly the reachable devices, upper and lower lists mirror each other with equal ref_nr, no device is its own upper |
| DevClosure.EstablishedRefs | linux-3.18.5/net/core/dev.c:5500-5528 | a link adds exactly one reference for every pair of a device at or below one and a device at or above the other |
| DevClosure.LinkTransitive | linux-3.18.5/net/core/dev.c:5471-5532 | a link keeps the lists transitively closed |
| DevNeighbours.NeighboursAreTheLinks | linux-3.18.5/net/core/dev.c:5300-5356 | after any history of attempts: the lists of neighbours are exactly the links made, each once, in their order, with the master in front |
| DevNeighbours.MasterIff | linux-3.18.5/net/core/dev.c:5071-5085 | looking at the first entry finds the master: it is one if and only if some link to a master was made, and there is never a second |
| DevNeighbours.HoldsCountEntries | linux-3.18.5/net/core/dev.c:5322-5380 | after any history a device is held once for every list that names it |
| DevLink.Devices.AdjacentDevInsert | linux-3.18.5/net/core/dev.c:5300-5356 | inserts one reference; a new entry takes memory, an entry in sysfs if it is a neighbour's and another for a master, and it fails if and only if one of these does, changing nothing |
| DevLink.Devices.AdjacentDevRemove | linux-3.18.5/net/core/dev.c:5358-5390 | takes one reference back |
| DevLink.Devices.AdjacentDevLinkLists | linux-3.18.5/net/core/dev.c:5392-5414 | both mirrored entries or none, and none only when an allocation failed |
| DevLink.Devices.AdjacentDevLinkNeighbour | linux-3.18.5/net/core/dev.c:5441-5460 | all four entries or none, and none only when an allocation failed |
| DevLink.Devices.LinkMesh | linux-3.18.5/net/core/dev.c:5503-5512 | the nested loops, and where they stopped on a failure |
| DevLink.Devices.UnlinkMesh | linux-3.18.5/net/core/dev.c:5554-5565 | the rollback of the nested loops |
| DevLink.Devices.LinkOthers | linux-3.18.5/net/core/dev.c:5503-5565 | the three stages, and their rollback when an allocation failed |
| DevLink.Devices.Test | linux-3.18.5/net/core/dev.c:5482-5494 | the tests made first: the devices differ, neither is above the other already, and no second master |
| DevLink.Devices.UpperDevLink | linux-3.18.5/net/core/dev.c:5471-5569 | passes the tests or is refused; then it makes all the links if every allocation succeeds, and if one fails leaves every list, count and hold as it was |
| DevLink.Devices.UpperDevUnlink | linux-3.18.5/net/core/dev.c:5623-5646 | the code of the unlink right after a link restores the state |

## Left out

- ReorderQueue.ReorderList.CloseHead: clears `prev` of the new head.  The code relies on it (`reorder_queue.c:190`) but does not do it where the head advances (`:52`, `:128`); the intended list is modelled.
- ReorderQueue.ReorderList.LinkBefore: does not model kmalloc failure, which the code does not check.
- GroQueue.Walk: does not model TCP flags, which only one branch combines, checksums, truesize, and the packet counter of a buffer.
- GroQueue.TcpGroReceive: takes the comparison of headers as an input (`differs`); only the header length, which is among what is compared, is a field.
- GroMeaning.RunAccounts: says nothing about when packets passed up directly are handed up relative to those completed; the code may do so after later data (`tcp_offload.c:391-399`).
- GroList.FlowQueue.DevGroReceive: does not model gro_pull_from_frag0, which moves header bytes of a held packet from its first fragment into the linear part.  qlen is unbounded; the 32-bit counter of the code wraps both ways alike.
- GroPool.Napi.DevGroReceive: the list of flows and the pool are sequences of queue numbers, not linked structures, and every entry is TCP, because dev_gro_complete reads the queue of an entry before its NULL test (`dev.c:3913`).  The aging of pooled queues only sets age and hash, which any call may find in any state.
- GroPool.Napi.NapiGroFlush: the flows whose first packet arrived in the current tick are given as a set (`recent`); starting the timer is left out.
- SkBuff.Buffer.PullTail: whether a buffer is cloned or shared is not a field; each place that may have to allocate either gets through or fails, as the input `fail` says.  References to pages are not counted, and members of a frag_list are values.
- SkBuffMove.Shift: truesize and references to pages are left out.
- SkbStore.StoreBits: the bytes in front of the data are a sequence of their own (`head`), which no fragment shares.
- SkbChecksum.SumBytes: csum_partial is architecture code and not part of this model; it may be any function that adds the 16-bit words.  csum_add and csum_block_add are those of include/net/checksum.h, which is not part of this model either.
- SkbSegment.Segment: buffers with a frag_list are not modelled; nor are checksums and headroom.
- SkbGro.MergeMeaning: page references and the freeing of the merged buffer are left out.
- Rps.InOrder: backlogs are bounded so that two of them fit in half of the counter range, as netdev_max_backlog is in practice; CPUs stay online, no device is flushed, and accelerated steering is off.
- Rps.Receiver.ProcessBacklog: without interference; interleavings are those of `Rps.Step`.
- PageFrag.FragmentsAreSafe: for requests of 2 bytes to a page, as the callers make them; requests of 1 byte would use up the bias within one page.
- PageFrag.AllocCache.NetdevAllocFrag: users interfere between the two looks at the reference count only; all other interleavings are those of `PageFrag.Step`.
- DevGraph.UnlinkUndoesEstablish: unlinking right after linking; for other histories the code is path-count exact on simple topologies only.  ref_nr is unbounded.
- DevLink.Devices.AdjacentDevInsert: entries in sysfs are allocations that may fail; the private pointer and notifications are left out.
- Nf10Ring.RunKeeps: the card completes descriptors in ring order; DMA mapping errors are left out, because the write pointers have already moved (`nf10priv.c:104-116`).
- Nf10.RxDescriptors: the receive ring is the same ring with fixed sizes; its code and allocation failure there are not modelled separately.
- Nf10Work.WorkHandler: takes completions as counts; what a received packet contains and where it goes is left out.
- The other kernel modules, tcp_probe, the traffic generators, scripts and plots, and the rest of dev.c and skbuff.c add only easy members or glue.
