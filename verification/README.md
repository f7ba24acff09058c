# Verified models of tun2socks and the measurement wrapper

This project models the event-driven core of the bundled tun2socks (BadVPN) code under
`measurement_proxy/tun2socks` and the country-pair scheduler under `wrapper`, and proves what
they are for. `dafny verify dfyconfig.toml` checks all of it.

What is modelled, in dependency order:

- **AVL tree with parent links** (`AvlTree`, `AvlRotation`, `AvlBalance`, `AvlSums`, `AvlAttach`,
  `AvlOrder`, `AvlSwap`, `AvlRemove`, `CAvl`, `CAvlQueries`). Nodes are links into maps for the
  child, parent, balance, count and sum fields, which the methods of the class rewrite in place.
  The abstract value is a tree; a stored tree is `Valid` when links, parents, balance factors,
  counts and associative sums are all right. Counts and sums are both present, over any monoid.
- **Fair queue** (`FairQueueSpec`, `FairQueue`). A state machine over exact integers carries the
  invariant and the properties of whole runs, stated over the packets that were handed over. The
  class uses the AVL tree and 64-bit arithmetic and is proved to take exactly the steps of that
  machine.
- **Circular packet buffer and PacketBuffer** (`ChunkLayout`, `ChunkGeometry`, `ChunkBuffer2`,
  `PacketBuffer`). Memory is a byte array of 4-byte blocks; the abstract value is a queue of packets.
- **PacketProto** (`PacketProto`, `PacketProtoFlow`). Encoder, stream sender and decoder over byte
  buffers, and the round trip under any fragmentation.
- **IPv6 text** (`Numeral`, `ParseNumber`, `Ipv6Text`, `Ipv6Quad`, `Ipaddr6`, `Ipv6Print`,
  `Ipv6Meaning`, `Ipv6Rfc`). The reference is a grammar of forms: groups, a gap, an IPv4 ending. The
  parser is proved to accept exactly the texts with a form; the printer's form is proved to be
  one. The code differs from section 2.2 of RFC 4291 in exactly three points, which the grammar
  follows: a group may have more than four digits, "::" may stand for no group, and the numbers of
  an IPv4 ending must not have leading zeros, about which the section says nothing.
- **Scheduler** (`SchedulerModel`, `SchedulerTrace`, `SchedulerMarks`, `Scheduler`). The loops of
  `wrapper.py` and `wrapper_delta.py` are the same over different initial matrices. An experiment is an oracle that
  ends in one of five ways. A run is a trace of events: experiments and countries found without
  hosts. In `wrapper.py` a country is also paired with itself; when its host fails as the second
  host there, the loop goes on without visiting the row again, and the result can be incomplete:
  the exact condition is proved.
- **SOCKS5 client** (`SocksSpec`, `SocksGrammar`, `SocksClient`). The reference is the grammar of a
  dialogue (RFC 1928 sections 3, 4 and 6, RFC 1929 section 2) over the whole stream of server
  bytes; the client reads it in pieces.
- **Job list and timers** (`PendingJobs`, `JobRuns`, `ReactorTimers`, `TimerRuns`, with
  `Sequences`, `TimeOrder`, `TimeTree` and `Basics`).

Addresses of objects are integers, with 0 for null. Times, sizes and lengths are integers; where the C type
matters (64-bit times and numbers, int-sized block counts, 16-bit groups, 8-bit octets) the range
checks and wrap-around are written out.

## Model

| member | source | states |
|---|---|---|
| `AvlTree.Recompute` | measurement_proxy/tun2socks/structure/CAvl_impl.h:73-83 | recomputing one node from its children gives it the count and the associative sum of its whole subtree |
| `AvlRotation.RotationKeepsOrder` | measurement_proxy/tun2socks/structure/CAvl_impl.h:166-193 | a rotation anywhere in a tree leaves the in-order sequence, the set of nodes and distinctness as they were |
| `AvlRotation.RotatedLinks` | measurement_proxy/tun2socks/structure/CAvl_impl.h:166-193 | the seven link writes of a rotation turn a stored tree into its rotated form, parent links included |
| `AvlBalance.SingleRotation` | measurement_proxy/tun2socks/structure/CAvl_impl.h:366-379 | one rotation and the two new factors make an outward-leaning subtree balanced, with the height the code's delta says |
| `AvlBalance.DoubleRotation` | measurement_proxy/tun2socks/structure/CAvl_impl.h:380-390 | two rotations and the three new factors make an inward-leaning subtree balanced and one lower |
| `AvlBalance.HeightChange` | measurement_proxy/tun2socks/structure/CAvl_impl.h:341-346 | the new delta is the real change of height, and lies in -1..1 |
| `AvlBalance.DepthBound` | measurement_proxy/tun2socks/structure/CAvl_impl.h:92-148 | a balanced tree of height h has at least Fib(h + 2) - 1 nodes, the least an AVL tree can have |
| `AvlSwap.SwappedShape` | measurement_proxy/tun2socks/structure/CAvl_impl.h:248-328 | exchanging all links of two nodes stores the same tree with the two nodes exchanged |
| `AvlOrder.PlaceInOrder` | measurement_proxy/tun2socks/structure/CAvl_impl.h:481-505 | the empty place a descent ends at is where the node belongs in the sorted sequence, next to the node the descent ended at |
| `AvlOrder.RemovedSorted` | measurement_proxy/tun2socks/structure/CAvl_impl.h:603-627 | taking a node out of a sorted tree leaves exactly the other nodes, sorted |
| `AvlRemove.PredecessorSeq` | measurement_proxy/tun2socks/structure/CAvl_impl.h:603-627 | after a node changes places with its predecessor and is unlinked there, the in-order sequence has lost exactly that node |
| `CAvl.CAvl.Rotate` | measurement_proxy/tun2socks/structure/CAvl_impl.h:166-193 | in place: links, factors outside the two nodes, counts and sums stay right and the order is unchanged |
| `CAvl.CAvl.Rebalance` | measurement_proxy/tun2socks/structure/CAvl_impl.h:330-411 | from one subtree whose height changed by delta, the upward walk ends with a valid tree of the same in-order sequence |
| `CAvl.CAvl.CountUp` | measurement_proxy/tun2socks/structure/CAvl_impl.h:514-523 | the walk to the root makes every count and associative sum on the way right again |
| `CAvl.CAvl.Insert` | measurement_proxy/tun2socks/structure/CAvl_impl.h:452-533 | inserts exactly when no entry compares equal, keeps the tree valid and sorted, adds the node at one position, and returns the equal or the neighbouring entry |
| `CAvl.CAvl.InsertAt` | measurement_proxy/tun2socks/structure/CAvl_impl.h:537-599 | the node is at the given index of the new in-order sequence and nothing else moved |
| `CAvl.CAvl.SwapForRemove` | measurement_proxy/tun2socks/structure/CAvl_impl.h:248-328 | node and predecessor exchange links, factors and counts whether or not they are parent and child |
| `CAvl.CAvl.ReplaceSubtree` | measurement_proxy/tun2socks/structure/CAvl_impl.h:217-246 | a node is replaced by its only subtree, with counts and sums corrected up to the root |
| `CAvl.CAvl.Remove` | measurement_proxy/tun2socks/structure/CAvl_impl.h:603-627 | the tree stays valid and the sequence loses exactly that node |
| `CAvlQueries.GetFirst` | measurement_proxy/tun2socks/structure/CAvl_impl.h:763-770 | the first node of the sequence, or null exactly for the empty tree |
| `CAvlQueries.GetLast` | measurement_proxy/tun2socks/structure/CAvl_impl.h:772-779 | the last node of the sequence, or null exactly for the empty tree |
| `CAvlQueries.GetNext` | measurement_proxy/tun2socks/structure/CAvl_impl.h:781-799 | the successor of the node in the sequence, or null |
| `CAvlQueries.GetPrev` | measurement_proxy/tun2socks/structure/CAvl_impl.h:801-819 | the predecessor of the node in the sequence, or null |
| `CAvlQueries.IndexOf` | measurement_proxy/tun2socks/structure/CAvl_impl.h:842-860 | the index of the node in the sequence |
| `CAvlQueries.GetAt` | measurement_proxy/tun2socks/structure/CAvl_impl.h:862-887 | the node at the index, or null exactly when the index is out of range |
| `CAvlQueries.RankUnique` | measurement_proxy/tun2socks/structure/CAvl_impl.h:842-887 | a node has one index, so the two searches undo each other |
| `CAvlQueries.AssocSum` | measurement_proxy/tun2socks/structure/CAvl_impl.h:893-900 | the associative sum over the whole sequence |
| `CAvlQueries.ExclusiveAssocPrefixSum` | measurement_proxy/tun2socks/structure/CAvl_impl.h:902-922 | the associative sum over the nodes before the given one |
| `CAvlQueries.FindLastPrefixSum` | measurement_proxy/tun2socks/structure/CAvl_impl.h:924-945 | for monotone prefix sums, the last node whose exclusive prefix sum is not above the target, and null exactly when there is none |
| `FairQueueSpec.RenormalisationExact` | measurement_proxy/tun2socks/flow/PacketPassFairQueue.c:79-116 | on overflow no queued flow is truncated and the sender ends at its true time within 0..FAIRQUEUE_MAX_TIME |
| `FairQueueSpec.NextKeepsInv` | measurement_proxy/tun2socks/flow/PacketPassFairQueue.c:79-217 | every event, freeing and busy handlers included, keeps the invariant, among it that no queued flow is earlier than the sending or just finished one |
| `FairQueueSpec.InitInv` | measurement_proxy/tun2socks/flow/PacketPassFairQueue.c:219-266 | an initialised queue satisfies the invariant |
| `FairQueueSpec.RunInv` | measurement_proxy/tun2socks/flow/PacketPassFairQueue.c:79-217 | in a run from any state with the invariant every state has it; a step of a run only assumes what the caller must respect |
| `FairQueueSpec.ReachableInv` | measurement_proxy/tun2socks/flow/PacketPassFairQueue.c:79-351 | the invariant holds in every state of every run from the empty queue |
| `FairQueueSpec.NeverStuck` | measurement_proxy/tun2socks/flow/PacketPassFairQueue.c:139-217 | until the queue is being freed, as long as a flow is queued a packet is being sent or the scheduling job is pending |
| `FairQueueSpec.Fairness` | measurement_proxy/tun2socks/flow/PacketPassFairQueue.c:79-217 | over a run, two flows that stay backlogged never differ in time by more than packet weight plus MTU or their first distance, across overflows |
| `FairQueueSpec.RunLengths` | measurement_proxy/tun2socks/flow/PacketPassFairQueue.c:118-180 | in every run the length charged for a packet is the one its flow handed over last |
| `FairQueueSpec.TimeIsService` | measurement_proxy/tun2socks/flow/PacketPassFairQueue.c:79-217 | while two flows stay backlogged in a run of a new queue, the change of the distance of their times is exactly the difference of weight plus length of the packets they handed over and that were completed, across overflows |
| `FairQueueSpec.FairService` | measurement_proxy/tun2socks/flow/PacketPassFairQueue.c:79-217 | the weighted bytes of completed packets of two flows that stay backlogged differ by at most their first distance plus the larger of that distance and packet weight plus MTU |
| `FairQueueSpec.JoinsLevel` | measurement_proxy/tun2socks/flow/PacketPassFairQueue.c:153-180 | a flow that becomes active is brought up to exactly the least time of the flows that are queued, sending or just done, unless it is ahead, and no other time changes |
| `FairQueueSpec.JoinsAlone` | measurement_proxy/tun2socks/flow/PacketPassFairQueue.c:153-180 | without such flows it keeps its time, and is sent at once unless the job is pending |
| `FairQueueSpec.JoinsFairly` | measurement_proxy/tun2socks/flow/PacketPassFairQueue.c:153-180 | from when an idle flow becomes active it is served at most packet weight plus MTU ahead of the competitor with the least time, whatever its past |
| `FairQueueSpec.StartsFairly` | measurement_proxy/tun2socks/flow/PacketPassFairQueue.c:153-180 | a new flow and the competitor with the least time are served alike up to packet weight plus MTU |
| `FairQueueSpec.DoneTimes` | measurement_proxy/tun2socks/flow/PacketPassFairQueue.c:79-116 | a completed packet charges its flow and moves all other times by one amount, cut off at zero, which is zero unless the time would overflow |
| `FairQueueSpec.StartsFirst` | measurement_proxy/tun2socks/flow/PacketPassFairQueue.c:118-137 | whenever a flow starts sending, every queued flow has a later time, or the same time and a higher address |
| `FairQueueSpec.NoStarvation` | measurement_proxy/tun2socks/flow/PacketPassFairQueue.c:118-205 | a queued flow waits for at most the sum over the other flows of max(0, t + 1 - their time) completed packets |
| `FairQueue.LoweredThenRaised` | measurement_proxy/tun2socks/flow/PacketPassFairQueue.c:79-116 | 64-bit underflow of the finished flow followed by overflow gives the exact times |
| `FairQueue.PacketPassFairQueue.constructor` | measurement_proxy/tun2socks/flow/PacketPassFairQueue.c:219-266 | the new queue is empty and satisfies the invariant |
| `FairQueue.PacketPassFairQueue.GetCurrentTime` | measurement_proxy/tun2socks/flow/PacketPassFairQueue.c:52-77 | the time of the sending flow, else the least of the first queued and the previous flow, else 0 |
| `FairQueue.PacketPassFairQueue.IncrementSentFlow` | measurement_proxy/tun2socks/flow/PacketPassFairQueue.c:79-116 | takes the exact-integer step with 64-bit arithmetic, and the tree needs no change |
| `FairQueue.PacketPassFairQueue.ScheduleFirst` | measurement_proxy/tun2socks/flow/PacketPassFairQueue.c:118-137 | the flow with the least time, by address among equals, starts sending |
| `FairQueue.PacketPassFairQueue.ScheduleJobHandler` | measurement_proxy/tun2socks/flow/PacketPassFairQueue.c:139-151 | takes the Job step of the specification and keeps the tree in order |
| `FairQueue.PacketPassFairQueue.InputHandlerSend` | measurement_proxy/tun2socks/flow/PacketPassFairQueue.c:153-180 | takes the Send step of the specification and keeps the tree in order |
| `FairQueue.PacketPassFairQueue.OutputHandlerDone` | measurement_proxy/tun2socks/flow/PacketPassFairQueue.c:182-217 | takes the Done step of the specification, keeps the tree in order, and calls the busy handler of the sent flow exactly if it was set, once |
| `FairQueue.PacketPassFairQueue.PrepareToFree` | measurement_proxy/tun2socks/flow/PacketPassFairQueue.c:281-287 | takes the PrepareFree step of the specification |
| `FairQueue.PacketPassFairQueue.SetBusyHandler` | measurement_proxy/tun2socks/flow/PacketPassFairQueue.c:386-398 | takes the SetBusy step of the specification |
| `FairQueue.PacketPassFairQueue.FlowInit` | measurement_proxy/tun2socks/flow/PacketPassFairQueue.c:296-321 | takes the Open step of the specification |
| `FairQueue.PacketPassFairQueue.FlowFree` | measurement_proxy/tun2socks/flow/PacketPassFairQueue.c:323-351 | takes the Close step of the specification and keeps the tree in order, also for the sending flow once the queue is being freed |
| `TimeOrder.CompareOrdering` | measurement_proxy/tun2socks/flow/PacketPassFairQueue.c:39-47 | comparing by time and then by address is a total order |
| `TimeOrder.CompareMeaning` | measurement_proxy/tun2socks/flow/PacketPassFairQueue.c:39-47 | an earlier time comes first and, among equal times, the lower address; only an entry compares equal to itself |
| `ChunkGeometry.RoomBehindEnd` | measurement_proxy/tun2socks/structure/ChunkBuffer2.h:154-183 | in every reachable layout a packet of MTU size fits between the end and the end of the memory |
| `ChunkGeometry.SubmitFits` | measurement_proxy/tun2socks/structure/ChunkBuffer2.h:245-278 | submitting what the input view allows keeps the layout invariant and stays clear of wrapped data |
| `ChunkGeometry.ConsumeFits` | measurement_proxy/tun2socks/structure/ChunkBuffer2.h:280-315 | consuming keeps the layout invariant, and an offered input view stays where it is and never shrinks |
| `ChunkGeometry.InputRegionFree` | measurement_proxy/tun2socks/structure/ChunkBuffer2.h:105-150 | what is written through the input view overlaps no stored packet |
| `ChunkGeometry.CalcBlocks` | measurement_proxy/tun2socks/structure/ChunkBuffer2.h:203-223 | the exact number of blocks, or failure exactly when it does not fit in an int |
| `ChunkGeometry.Capacity` | measurement_proxy/tun2socks/structure/ChunkBuffer2.h:203-223 | with that many blocks there is room for a full packet whenever fewer than num packets are stored |
| `ChunkBuffer2.ChunkBuffer2.constructor` | measurement_proxy/tun2socks/structure/ChunkBuffer2.h:225-243 | an empty buffer with the output view right, and the input view right exactly if it offers nothing or its length fits in an int |
| `ChunkBuffer2.ChunkBuffer2.UpdateInput` | measurement_proxy/tun2socks/structure/ChunkBuffer2.h:154-183 | the input view offers exactly the free contiguous bytes behind the next length block |
| `ChunkBuffer2.ChunkBuffer2.ViewIsAllThatIsFree` | measurement_proxy/tun2socks/structure/ChunkBuffer2.h:105-134 | the view starts one block behind the newest packet and reaches to the oldest one or to the end of the memory, and is missing exactly if no block is free |
| `ChunkBuffer2.ChunkBuffer2.UpdateOutput` | measurement_proxy/tun2socks/structure/ChunkBuffer2.h:185-201 | the output view shows the oldest packet, or none exactly when the buffer is empty |
| `ChunkBuffer2.ChunkBuffer2.SubmitPacket` | measurement_proxy/tun2socks/structure/ChunkBuffer2.h:245-278 | the bytes in the input view become the newest packet of the queue, whole |
| `ChunkBuffer2.ChunkBuffer2.ConsumePacket` | measurement_proxy/tun2socks/structure/ChunkBuffer2.h:280-315 | the oldest packet leaves the queue; a pending input view keeps its place and does not shrink |
| `PacketBuffer.PacketBuffer.Init` | measurement_proxy/tun2socks/flow/PacketBuffer.c:84-123 | fails exactly when the number of blocks does not fit in an int or they are not allocated; otherwise starts with a receive outstanding and nothing stored, with a right input view exactly if its length fits in an int |
| `PacketBuffer.PacketBuffer.InputHandlerDone` | measurement_proxy/tun2socks/flow/PacketBuffer.c:40-61 | the packet is recorded, and afterwards a receive is outstanding exactly when a full packet fits and a send exactly when something is stored, neither started twice |
| `PacketBuffer.PacketBuffer.OutputHandlerDone` | measurement_proxy/tun2socks/flow/PacketBuffer.c:63-82 | the bytes in the output view, which are the oldest packet, are delivered, the same invariant holds, and an outstanding receive is not disturbed |
| `PacketBuffer.PacketBuffer.NeverIdle` | measurement_proxy/tun2socks/flow/PacketBuffer.c:40-82 | in every state an operation is outstanding, and what was delivered is a prefix of what was received |
| `PacketProto.EncodedIsReady` | measurement_proxy/tun2socks/flow/PacketProtoDecoder.c:46-105 | an encoded packet in front is recognised whatever follows it |
| `PacketProto.ReadyIsEncoded` | measurement_proxy/tun2socks/flow/PacketProtoDecoder.c:46-105 | a recognised packet, encoded, and the rest are the bytes received |
| `PacketProto.PrefixNeedsMore` | measurement_proxy/tun2socks/flow/PacketProtoDecoder.c:46-105 | a proper prefix of an encoded packet is neither a packet nor an error |
| `PacketProto.UniquelyDecodable` | measurement_proxy/tun2socks/flow/PacketProtoEncoder.c:51-64 | packets whose encoding is a prefix of a stream are the first packets of that stream |
| `PacketProto.DecoderRoundTrip` | measurement_proxy/tun2socks/flow/PacketProtoDecoder.c:46-128 | for every packet sequence within the MTU, every split of its encoding and every timing of the output, the decoder reports no error, emits a prefix of the sequence, and all of it once everything has arrived and been taken |
| `PacketProto.FaithfulUntilError` | measurement_proxy/tun2socks/flow/PacketProtoDecoder.c:46-128 | in every run without an error, whatever was sent, what was received is the encoding of what was passed on and the pending bytes |
| `PacketProto.AnyStream` | measurement_proxy/tun2socks/flow/PacketProtoDecoder.c:46-128 | for any bytes in any pieces up to the first error: the packets passed on are those the stream starts with, all of them at a pause, and the error has been reported exactly if a length above the MTU follows them |
| `PacketProtoFlow.PacketProtoEncoder.OutputHandlerRecv` | measurement_proxy/tun2socks/flow/PacketProtoEncoder.c:40-49 | the output buffer is taken over for one packet, and the one outstanding receive is right behind its header with room for the input MTU |
| `PacketProtoFlow.PacketProtoEncoder.InputHandlerDone` | measurement_proxy/tun2socks/flow/PacketProtoEncoder.c:51-64 | the buffer then starts with the encoding of the packet that was put behind the header: the length, low byte first, and the packet unmoved |
| `PacketProtoFlow.PacketStreamSender.InputHandlerSend` | measurement_proxy/tun2socks/flow/PacketStreamSender.c:50-63 | the packet is accepted whole; an empty one is finished at once |
| `PacketProtoFlow.PacketStreamSender.OutputHandlerDone` | measurement_proxy/tun2socks/flow/PacketStreamSender.c:65-77 | the stream carries exactly the accepted bytes in order, and a packet is finished when all of it was taken |
| `PacketProtoFlow.PacketProtoDecoder.constructor` | measurement_proxy/tun2socks/flow/PacketProtoDecoder.c:130-166 | the buffer is large enough and the first receive is for a positive number of bytes inside it |
| `PacketProtoFlow.PacketProtoDecoder.ProcessData` | measurement_proxy/tun2socks/flow/PacketProtoDecoder.c:46-105 | does the step of the specification on the circularly used buffer; a following receive has positive length inside it |
| `PacketProtoFlow.PacketProtoDecoder.InputHandlerDone` | measurement_proxy/tun2socks/flow/PacketProtoDecoder.c:107-119 | does the Recv step of the specification |
| `PacketProtoFlow.PacketProtoDecoder.OutputHandlerDone` | measurement_proxy/tun2socks/flow/PacketProtoDecoder.c:121-128 | does the Sent step of the specification |
| `PacketProtoFlow.PacketProtoDecoder.Reset` | measurement_proxy/tun2socks/flow/PacketProtoDecoder.c:176-182 | forgets the pending bytes without moving the place of an outstanding receive |
| `Ipv6Text.DigitStep` | measurement_proxy/tun2socks/misc/ipaddr6.h:108-123 | a character that should be a digit is refused exactly when no valid text continues so, and otherwise every valid reading agrees with the extended group |
| `Ipv6Text.ColonStep` | measurement_proxy/tun2socks/misc/ipaddr6.h:83-107 | a ':' or '::' is refused exactly when no valid text continues so, and otherwise every valid reading agrees with the closed group |
| `Ipv6Text.StartStep` | measurement_proxy/tun2socks/misc/ipaddr6.h:83-107 | a text may start with ':' only as '::' |
| `Ipv6Text.EndStep` | measurement_proxy/tun2socks/misc/ipaddr6.h:126-142 | a finished text denotes one form, or none exactly when the code refuses it |
| `Ipv6Quad.DotStep` | measurement_proxy/tun2socks/misc/ipaddr6.h:149-156 | a '.' starts an IPv4 ending at the start of the open group, or no valid text continues so |
| `Ipv6Quad.QuadEndStep` | measurement_proxy/tun2socks/misc/ipaddr6.h:193-204 | an IPv4 ending denotes one form, or none exactly when the code refuses it |
| `Ipv6Quad.UniqueForm` | measurement_proxy/tun2socks/misc/ipaddr6.h:71-205 | no two forms have the same text, so every text of the grammar denotes one address |
| `Ipv6Rfc.RfcTextsParse` | measurement_proxy/tun2socks/misc/ipaddr6.h:71-205 | a text that section 2.2 of RFC 4291 allows is accepted if and only if no number of its IPv4 ending has a leading zero, and then gives its address |
| `Ipv6Rfc.AcceptedIsRfcIff` | measurement_proxy/tun2socks/misc/ipaddr6.h:108-123 | an accepted text is one the RFC allows if and only if no group has more than four digits and a '::' stands for at least one block |
| `Ipv6Rfc.SameQuad` | measurement_proxy/tun2socks/misc/ipaddr6.h:149-156 | the IPv4 ending of a text, with or without leading zeros, can be read off in one way only |
| `Ipv6Rfc.LeadingZeroRefused` | measurement_proxy/tun2socks/misc/ipaddr6.h:172-175 | a text that is allowed and refused: an IPv4 ending with a leading zero |
| `Ipv6Rfc.EmptyGapAccepted` | measurement_proxy/tun2socks/misc/ipaddr6.h:83-107 | a text that is accepted and not allowed: a '::' between eight groups |
| `Ipv6Rfc.LongGroupAccepted` | measurement_proxy/tun2socks/misc/ipaddr6.h:108-123 | a text that is accepted and not allowed: a group of five digits |
| `Ipv6Rfc.PrintedIsRfc` | measurement_proxy/tun2socks/misc/ipaddr6.h:328-372 | the form that is printed is one the RFC allows |
| `Ipaddr6.ParseAddr` | measurement_proxy/tun2socks/misc/ipaddr6.h:71-205 | succeeds exactly on the texts that have a form, and then stores the sixteen bytes of its only form |
| `Ipv6Meaning.GroupWord` | measurement_proxy/tun2socks/misc/ipaddr6.h:126-147 | the groups before the gap are the first 16-bit numbers of the address and those behind it the last, most significant byte first |
| `Ipv6Meaning.GapWord` | measurement_proxy/tun2socks/misc/ipaddr6.h:143-145 | the numbers in the gap are zero |
| `Ipv6Meaning.QuadBytes` | measurement_proxy/tun2socks/misc/ipaddr6.h:149-204 | the numbers of an IPv4 ending are the last four bytes of the address |
| `Ipv6Meaning.CaseIgnored` | measurement_proxy/tun2socks/misc/parse_number.h:82-105 | texts that differ only in the case of hexadecimal letters are accepted alike and give the same address |
| `Ipaddr6.ReadIpv4Ending` | measurement_proxy/tun2socks/misc/ipaddr6.h:149-204 | the same from the first '.' on |
| `Ipaddr6.Spread` | measurement_proxy/tun2socks/misc/ipaddr6.h:143-145 | moving the rear blocks and clearing the gap gives the expanded address |
| `Ipv6Print.FindLongestRun` | measurement_proxy/tun2socks/misc/ipaddr6.h:330-346 | the run of zero blocks is the longest and the first of its length |
| `Ipv6Print.PrintAddr` | measurement_proxy/tun2socks/misc/ipaddr6.h:328-372 | prints the form that leaves out the first longest run of two or more zero blocks |
| `Ipv6Print.PrintFormValid` | measurement_proxy/tun2socks/misc/ipaddr6.h:328-372 | the printed form is valid and its address is the one printed |
| `Ipv6Meaning.PrintedShape` | measurement_proxy/tun2socks/misc/ipaddr6.h:328-372 | two or more zero blocks are printed as one gap, every other block as a lower-case group without leading zeros |
| `Ipv6Print.PrintedParses` | measurement_proxy/tun2socks/misc/ipaddr6.h:71-205 | whatever the parser makes of a printed address is the same address |
| `Ipv6Print.PrintedLength` | measurement_proxy/tun2socks/misc/ipaddr6.h:328-372 | a printed address has at most 39 characters |
| `Ipv6Print.FindChar` | measurement_proxy/tun2socks/misc/memref.h:160-173 | the first position of the character, or that it does not occur |
| `Ipv6Print.ParsePrefix` | measurement_proxy/tun2socks/misc/ipaddr6.h:207-219 | succeeds exactly on non-empty digit strings of value at most 128 |
| `Ipv6Print.ParseIfaddr` | measurement_proxy/tun2socks/misc/ipaddr6.h:221-230 | splits at the first slash and succeeds exactly when both parts are valid |
| `Ipv6Print.PrintIfaddr` | measurement_proxy/tun2socks/misc/ipaddr6.h:374-381 | the text with its terminating zero fits in IPADDR6_PRINT_MAX |
| `Ipv6Print.PrintedIfaddrParses` | measurement_proxy/tun2socks/misc/ipaddr6.h:221-230 | whatever the parser makes of a printed address with prefix is the same pair |
| `Numeral.DigitTable` | measurement_proxy/tun2socks/misc/parse_number.h:62-105 | the digits 0 to 9, a to f and A to F have the values 0 to 15, and the digit that is written is the lower-case one |
| `Numeral.NoOtherDigits` | measurement_proxy/tun2socks/misc/parse_number.h:62-105 | no other character is a digit |
| `Numeral.ValueOfConcat` | measurement_proxy/tun2socks/misc/parse_number.h:109-120 | numerals are positional in base ten or sixteen |
| `Numeral.ReprValue` | measurement_proxy/tun2socks/misc/parse_number.h:210-221 | the canonical digits of a number have that number as their value |
| `Numeral.ReprUnique` | measurement_proxy/tun2socks/misc/parse_number.h:210-221 | a numeral without leading zeros is the canonical one of its value |
| `ParseNumber.MemcmpIsComparison` | measurement_proxy/tun2socks/misc/parse_number.h:139-144 | byte-wise comparison of digit strings of the same length is comparison of their values |
| `ParseNumber.OverflowByComparison` | measurement_proxy/tun2socks/misc/parse_number.h:139-144 | length and string comparison decide exactly whether the value exceeds 2^64 - 1 |
| `ParseNumber.ParseNoOverflow` | measurement_proxy/tun2socks/misc/parse_number.h:107-124 | succeeds exactly on digit strings; the result is the value modulo 2^64 |
| `ParseNumber.ParseUnsignedInteger` | measurement_proxy/tun2socks/misc/parse_number.h:126-147 | succeeds exactly on non-empty digit strings, leading zeros allowed, of value at most 2^64 - 1, and returns the value |
| `ParseNumber.ComputeDecimalReprSize` | measurement_proxy/tun2socks/misc/parse_number.h:198-208 | the number of canonical digits |
| `ParseNumber.GenerateDecimalRepr` | measurement_proxy/tun2socks/misc/parse_number.h:210-221 | fills the buffer from its end with the canonical digits and touches nothing behind them |
| `ParseNumber.RoundTrip` | measurement_proxy/tun2socks/misc/parse_number.h:126-232 | parsing what was generated returns the number, for every 64-bit number |
| `Scheduler.InitMatrix` | wrapper/wrapper_delta.py:166-183 | a pair is skipped exactly when both countries come from the same file, and unused otherwise |
| `Scheduler.TurnPairs` | wrapper/wrapper_delta.py:255-261 | the loop over k turns exactly the pairs of one country from one value to the other, on both sides of the diagonal |
| `SchedulerModel.MeasuredKeeps` | wrapper/wrapper_delta.py:223-239 | a successful experiment keeps the matrix symmetric, every 3 measured with the hosts now first in both lists, and final entries final |
| `SchedulerModel.PoppedKeeps` | wrapper/wrapper_delta.py:241-290 | losing a host and rolling its pairs back from 3 to 2 keeps the same invariant |
| `SchedulerModel.WithoutHostsKeeps` | wrapper/wrapper_delta.py:320-354 | marking a country without hosts keeps the same invariant |
| `SchedulerTrace.RunKeeps` | wrapper/wrapper_delta.py:196-356 | after every run the matrix is symmetric and consistent with the hosts left, final entries are final, the experiments are within the budget, and everything behind the loops has been visited |
| `SchedulerTrace.UnusedIffUntouched` | wrapper/wrapper_delta.py:204-354 | a pair is still 1 exactly if it was 1 at the start and no experiment ended on it and no exhausted country closed it |
| `SchedulerTrace.HostsNotLost` | wrapper/wrapper_delta.py:241-290 | a country has exactly the hosts left that have not failed, in order |
| `SchedulerTrace.OpenIffLeftBehind` | wrapper/wrapper.py:161-324 | a finished run leaves a pair that could still be measured if and only if the last failure of some country as its own partner left it with a host |
| `SchedulerTrace.CompleteIffNothingLeft` | wrapper/wrapper.py:161-324 | a finished run settles all pairs if and only if no such country is left behind and none lost its last host so with its own pair never marked |
| `SchedulerTrace.RunDetermined` | wrapper/wrapper.py:161-324 | hosts, initial matrix and outcomes of the experiments determine the run, so these conditions are conditions on the input |
| `SchedulerMarks.RunTold` | wrapper/wrapper_delta.py:204-354 | every value of the matrix told from the events: 4 iff a small error ended an experiment for the pair, 3 iff one succeeded and neither country lost a host since, 2 iff one succeeded and a loss followed the last success, 0 iff a country was found without hosts before any result, 1 iff nothing happened, 5 iff it was skipped |
| `SchedulerMarks.HostsAfter` | wrapper/wrapper_delta.py:241-290 | a failure of the first host costs the first country its first host, one of the second host the second country, and nothing else costs one |
| `SchedulerMarks.NextPlace` | wrapper/wrapper_delta.py:223-318 | where the loops go on: behind the pair after a result, in its own row after the first host failed, in the row of the second country if that is earlier and in the next row otherwise |
| `Scheduler.VisitRow` | wrapper/wrapper_delta.py:204-336 | one pass over a row makes exactly the due events of the run, up to the row it returns or to a fatal error |
| `Scheduler.Schedule` | wrapper/wrapper_delta.py:196-356 | from any initial matrix the loop ends with exactly the run the outcomes determine, within the budget; the matrix and the hosts left are told by its events; it slipped exactly if a host failed as partner of its own country; complete, and nothing left to measure, under the exact conditions above |
| `Scheduler.ExecuteDelta` | wrapper/wrapper_delta.py:166-356 | without a fatal error no pair is left at 1, every 0 or 2 has a country without hosts, every value of the matrix is what the events say, from 5 for pairs of one file and 1 for the others, and there are at most n(n+1)/2 + (n+1)H + 1 experiments |
| `Scheduler.ExecuteSingle` | wrapper/wrapper.py:150-324 | the same for one list with the diagonal included: every value is what the events say, the exact conditions for a complete result and for a pair left open, and completeness whenever no host failed as its own partner |
| `Scheduler.SlipLeavesHost` | wrapper/wrapper.py:232-258 | a whole run in which completeness fails: one country with two hosts, the first fails as its own partner, and the pair stays unused with a host left |
| `Scheduler.SlipLeavesUnmarked` | wrapper/wrapper.py:232-258 | a whole run in which completeness fails otherwise: the only host of the only country fails as its own partner, and the pair is not marked as impossible |
| `SchedulerModel.OpenBound` | wrapper/wrapper_delta.py:196-356 | at most n(n+1)/2 unordered pairs can be open |
| `SocksSpec.VerdictExtends` | measurement_proxy/tun2socks/socksclient/BSocksClient.c:230-394 | a decision about a stream of server bytes does not depend on what follows |
| `SocksSpec.AcceptedLength` | measurement_proxy/tun2socks/socksclient/BSocksClient.c:230-394 | an accepted dialogue takes exactly 2 (+2 with a password) + 4 + (6 for an IPv4, 18 for an IPv6 address) bytes |
| `SocksGrammar.AcceptedIff` | measurement_proxy/tun2socks/socksclient/BSocksClient.c:230-394 | a stream is accepted after n bytes if and only if those are a successful dialogue of RFC 1928 and RFC 1929 with a method that was offered and can be used |
| `SocksGrammar.RejectedIff` | measurement_proxy/tun2socks/socksclient/BSocksClient.c:230-394 | it is rejected after n bytes if and only if they end the first message that no successful dialogue has there |
| `SocksGrammar.StarvedIff` | measurement_proxy/tun2socks/socksclient/BSocksClient.c:230-394 | it is undecided if and only if all complete messages are those of a successful dialogue and it is not over |
| `SocksGrammar.HelloRead` | measurement_proxy/tun2socks/socksclient/BSocksClient.c:187-201 | a server reads the version, the number of methods and the method of each way to authenticate, in order |
| `SocksGrammar.PasswordRead` | measurement_proxy/tun2socks/socksclient/BSocksClient.c:286-303 | a server reads the username and the password back |
| `SocksGrammar.RequestRead` | measurement_proxy/tun2socks/socksclient/BSocksClient.c:463-507 | a server reads CONNECT and the destination, with its type |
| `SocksGrammar.SaidAll` | measurement_proxy/tun2socks/socksclient/BSocksClient.c:147-507 | an accepted client has said hello, given the first password it offered if it was asked for one, and asked for its destination |
| `SocksGrammar.SaidInOrder` | measurement_proxy/tun2socks/socksclient/BSocksClient.c:147-507 | nothing is said before the answer that allows it |
| `SocksClient.SocksClient.constructor` | measurement_proxy/tun2socks/socksclient/BSocksClient.c:526-564 | the client starts connecting, with nothing sent, received or reported |
| `SocksClient.SocksClient.ConnectorHandler` | measurement_proxy/tun2socks/socksclient/BSocksClient.c:147-214 | sends the hello that lists all methods, or reports an error exactly when the connection failed, it or the buffer could not be allocated, or there are none or more than 255 |
| `SocksClient.SocksClient.SendHandlerDone` | measurement_proxy/tun2socks/socksclient/BSocksClient.c:396-461 | starts the receive of the answer that belongs to the message sent, or reports an error exactly if its buffer was not allocated |
| `SocksClient.SocksClient.RecvHandlerDone` | measurement_proxy/tun2socks/socksclient/BSocksClient.c:230-394 | in every phase the buffer holds what was received of the current message, and phase, messages sent and events are those the bytes received so far call for; a message that is due and has no memory ends in one error |
| `SocksClient.SocksClient.FindAuth` | measurement_proxy/tun2socks/socksclient/BSocksClient.c:255-265 | the first offered authentication with the method the server picked, or none |
| `SocksClient.SocksClient.AuthFinished` | measurement_proxy/tun2socks/socksclient/BSocksClient.c:463-507 | the request for the destination is sent, after authentication only, or an error is reported exactly if its buffer was not allocated |
| `SocksClient.SocksClient.ConnectionHandler` | measurement_proxy/tun2socks/socksclient/BSocksClient.c:216-228 | one error is reported, a closed one only when the client is up |
| `SocksClient.WaitingIsUndecided` | measurement_proxy/tun2socks/socksclient/BSocksClient.c:129-145 | a client that waits for bytes has received too few to decide |
| `SocksClient.Feed` | measurement_proxy/tun2socks/socksclient/BSocksClient.c:129-507 | however the stream is cut into pieces, unless memory runs out the final phase, the bytes taken, the messages sent and the event reported are those of the verdict on the whole stream, UP exactly after a successful dialogue; and otherwise one error is reported and nothing else was said |
| `PendingJobs.RemovedMark` | measurement_proxy/tun2socks/structure/SLinkedList_impl.h:32-44 | a job's next link is to itself exactly when it is not in the list, although prev of the first entry is stale |
| `PendingJobs.Removed` | measurement_proxy/tun2socks/structure/SLinkedList_impl.h:128-142 | unlinking writes exactly the links of the list without that job, wherever it is |
| `PendingJobs.PendingGroup.Init` | measurement_proxy/tun2socks/base/BPending.c:97-114 | a new job is known and not set |
| `PendingJobs.PendingGroup.Free` | measurement_proxy/tun2socks/base/BPending.c:116-126 | the job leaves the stack, if it was in it, and is forgotten |
| `PendingJobs.PendingGroup.Set` | measurement_proxy/tun2socks/base/BPending.c:137-154 | the job becomes the top of the stack and is in it once |
| `PendingJobs.PendingGroup.Unset` | measurement_proxy/tun2socks/base/BPending.c:156-171 | the job leaves the stack, the others keep their order |
| `PendingJobs.PendingGroup.HasJobs` | measurement_proxy/tun2socks/base/BPending.c:59-64 | whether any job is set |
| `PendingJobs.PendingGroup.IsSet` | measurement_proxy/tun2socks/base/BPending.c:173-179 | whether the job is in the stack |
| `PendingJobs.PendingGroup.ExecuteJob` | measurement_proxy/tun2socks/base/BPending.c:66-88 | the top job is taken off before it runs |
| `PendingJobs.LastInFirstOut` | measurement_proxy/tun2socks/base/BPending.c:66-88 | in every run a job that is left alone runs only after each job above it has run or was unset or freed |
| `JobRuns.InStackIffSet` | measurement_proxy/tun2socks/base/BPending.c:96-171 | a job is in the stack exactly if the last event about it set it |
| `JobRuns.RunsOnlyIfSet` | measurement_proxy/tun2socks/base/BPending.c:66-88 | only a job that was set, and neither ran nor was taken away since, runs |
| `JobRuns.LaterSetRunsFirst` | measurement_proxy/tun2socks/base/BPending.c:66-171 | of two jobs that are set the one set later runs first, or is taken away |
| `ReactorTimers.Reactor.constructor` | measurement_proxy/tun2socks/system/BReactor_badvpn.c:591-604 | no timer is running or expired |
| `ReactorTimers.Reactor.Init` | measurement_proxy/tun2socks/system/BReactor_badvpn.c:563-568 | a new timer is inactive |
| `ReactorTimers.Reactor.MoveExpiredTimers` | measurement_proxy/tun2socks/system/BReactor_badvpn.c:80-107 | moves exactly the timers that are due, in the order of time and address, to the end of the expired list, and says whether there were any |
| `ReactorTimers.Reactor.MoveFirstTimers` | measurement_proxy/tun2socks/system/BReactor_badvpn.c:109-148 | moves exactly the timers with the first time, in order |
| `ReactorTimers.Reactor.SetSmallTimer` | measurement_proxy/tun2socks/system/BReactor_badvpn.c:995-1018 | the timer runs with the given time, or with the sum of it and the current time cut off at the 64-bit range, and is in neither list twice, whatever it was before |
| `ReactorTimers.Reactor.RemoveSmallTimer` | measurement_proxy/tun2socks/system/BReactor_badvpn.c:1020-1039 | the timer is inactive and in neither collection, the others keep their order |
| `ReactorTimers.Reactor.DispatchTimer` | measurement_proxy/tun2socks/system/BReactor_badvpn.c:777-798 | the first expired timer is taken and inactive before its handler runs |
| `ReactorTimers.NextKeepsInv` | measurement_proxy/tun2socks/system/BReactor_badvpn.c:80-148 | every event keeps the running timers in order and every timer in at most one list, once |
| `ReactorTimers.NotDispatchedUnlessSet` | measurement_proxy/tun2socks/system/BReactor_badvpn.c:777-798 | in every run a removed or dispatched timer is not dispatched before it is set again |
| `ReactorTimers.NeverDispatchedEarly` | measurement_proxy/tun2socks/system/BReactor_badvpn.c:80-148 | in every run a dispatched timer was due at an earlier expiry and was not set anew since |
| `TimerRuns.SetFor` | measurement_proxy/tun2socks/system/BReactor_badvpn.c:995-1034 | an active timer has the time for which it was set last, and was left alone since |
| `TimerRuns.DispatchedWhenDue` | measurement_proxy/tun2socks/system/BReactor_badvpn.c:80-148 | a timer is dispatched only after it was set for some time, left alone since, and that time was reached |
| `TimerRuns.ExpiredInTime` | measurement_proxy/tun2socks/system/BReactor_badvpn.c:80-110 | once move_expired_timers has seen a time, no timer set for it or earlier still runs |
| `TimerRuns.DispatchedInOrder` | measurement_proxy/tun2socks/system/BReactor_badvpn.c:80-148 | timers that expire together are dispatched in the order of their times and addresses, unless set anew or removed |

## Left out

- CAvl_Lookup, CAvl_LookupExact, GetFirstGreater and the other key searches: plain descents beside the searches that are modelled.
- ChunkBuffer2: the block size is taken to be 4 bytes.
- RemoveSmallTimer, SetSmallTimer: the expired list is a sequence; the links of LinkedList1 are not modelled.
- MoveFirstTimers: that a wait which timed out lasted at least as long as asked is its precondition; the waiting loop of wait_for_events and the file descriptor events are not modelled.
- GenerateDecimalRepr: takes any number, not only 64-bit ones.
- Fair queue: cancelling a packet that is being sent and the number of queued flows are not modelled; times are not compared across idle periods, where the current time starts again at 0.
- PacketProtoDecoder: the error handler is an output of the step; the connection behind it is not modelled.
- Scheduler: reading and grouping the input files, the log, the experiment number, and the initialisation and completion commands.
- ipaddr6 masks: prefix to mask, mask to prefix and network comparison are short loops over one byte.
- parse_unsigned_hex_integer, parse_signmag_integer: small variants of the parsers that are modelled.
- BAVL.h: the same algorithm as the AVL tree without sums.
- SLinkedList Append, InsertBefore, InsertAfter, RemoveLast: not used by the job list.
- Sockets, SSH, shell commands, checksums, logging, debug objects and counters, the controller and analysis scripts.
