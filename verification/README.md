# Verified models of the host-target communication core

This project models the parts of the driver in which several threads, or a host and its firmware, have to agree,
and proves what they keep.

**The HTC transmit engine** (`core/htc`).  Packets wait in an endpoint's `TxQueue`, are charged credits, are handed
to the host interface (HIF) by one draining thread at a time, and wait in `TxLookupQueue` for their completion.
Credits come back in reports from the firmware.

- `DlList` and `PacketQueues` are the heap structure underneath: the circular intrusive list and the queue with its
  hand-kept `Depth`.  Every operation is proved to be an operation on a sequence of nodes.
- `TxModel` says on values what one pass over a queue takes and charges, what admission lets in and what a completion
  looks up, and proves what these functions mean.
- `TxQueueOps` and `TxEndpoints` are the loops and the lock regions of `htc_send.c` on the heap.  Each method is
  proved to take a heap that shows a state of the engine to a heap that shows the state after one of its actions.
- `TxHosts` puts an endpoint, the queues of all its threads and the queue of the completion handler on one heap, with
  one method for each action.  Called in any order, by any threads, they keep the heap showing a reachable state;
  `TxFamilies` says what a region that works on some of the queues leaves alone.
- `TxThreads` is what one thread makes of these methods: `htc_send_pkts_multiple` with its loops.
- `TxEngine` is the engine as a transition system: any number of threads; one action is one region under `HTCTxLock`
  or one step between two such regions.  HIF, the bus and the send-full callback answer as they like.
- `TxSafety`, `TxOrder`, `TxCredits`, `TxStarvation` (which charges asked for credits, and which of them went out) and
  `TxLookup` (the lookup queue and its counter while a completion is searched for) hold the invariants, `TxTheorems`
  what follows for every reachable state, `TxCaller` the way from a caller's queue to HIF, `TxExamples` concrete runs.
- `TxWalks` takes the search for a completed packet apart into its turns, between which HIF may refuse a packet under
  the walk's feet; `TxWalkOps` is a turn, and a refusal, on the heap.
- `Trailer` is the way the credits come back: the trailer of a received frame.  `TxReports` goes from the bytes of the
  trailers to the credits of an endpoint.

**The WMI TLV helper** (`core/wmi/wmi_tlv_helper.c`): the flat attribute table (`TlvTable`), the validator of a
message (`TlvCheck`), the fitting of an array of structures by copying and in place (`TlvPad`), and the negotiation of
the interface version (`WmiVersion`).

**Two small pieces of `core/cdf`**: the recursive mutex with its unlocked fast path (`CdfMutex`) and the trace ring
buffer (`TraceRing`).

`dafny verify dfyconfig.toml` checks everything.

## What the proofs show about the code

Some promises one would like to make are not kept by the code on all inputs.  When they are kept is proved.

- *Credits are conserved* holds if and only if no HIF failure left packets behind it in its batch (or the endpoint is
  endpoint 0): only the failed packet is refunded, while those behind it go back to `TxQueue` and are charged again
  (`TxTheorems.CreditConservation`; `TxExamples.FailureLeaksCredits` is such a run).
- *A starving endpoint has asked for credits* holds of the packet charged last in every run.  That packet is the last
  one that HIF accepted or that is in the drainer's hand if and only if no failed batch has been put back since it was
  charged.  If one has, the last packet that HIF accepted asked if and only if the credits left after its own charge
  were at or below the threshold (`TxTheorems.StarvationIsAnnounced`).
  `TxExamples.FailureCanStarveInSilence` is a run in which the endpoint is blocked although no packet that HIF accepted
  carries the request.
- *Depth is the length of the queue* holds of `TxLookupQueue` if and only if HIF has rejected no packet that the
  completion search under way had detached: `HTC_PACKET_REMOVE` then names the wrong queue.  The two counters are off by
  one in opposite directions until the search puts its packets back (`TxTheorems.DepthIsExactUnlessRefused`,
  `TxHosts.TxHost.LookupDepth` for the heap; `TxExamples.RefusedWhileDetached` is a run that ends with Depth -1).
- *The search for a completed packet ends* fails if and only if HIF refuses a packet at the very moment the walk over the
  detached packets, which holds no lock, stands at it: the walk then leaves the queue with the packet, and goes round in
  the queue the packet is put in (`TxWalks.AstrayExactlyIfMisled`, `TxWalkOps.RefuseOnHeap`, `TxWalkOps.RoundAndRound`).
  That can only happen to a search for a packet that has been completed before
  (`TxWalks.OnlyRepeatedCompletionsGoAstray`; `TxExamples.RepeatedCompletionGoesAstray` is such a run); a packet that
  waits for its first completion is always found (`TxWalks.WalkFindsFirstMatch`).
- *The mutex is released at the outermost release* holds as long as no thread nests 256 deep: `refcount` has eight
  bits (`CdfMutex.WrapsAtDepth256`).  Over any run, `refcount` is the depth of the idle owner in every state if and only
  if it never wraps (`CdfMutex.FromStartCountsRightUnlessWrapped`).  `CdfMutex.TwoThreadsInside` is a run that ends with
  two threads inside.
- *A dump shows the records that were the newest when it began* holds if less than a lap is recorded after each of them
  before the dump, which drops its lock between records, reads it; it finds those very records in their slots if and
  only if that is so (`TraceRing.DumpIsExact`, `TraceRing.DumpShowsNewest`; `TraceRing.LateDumpDiffers` for records that
  all differ).  `TraceRing.DumpCanMixLaps` is a dump that shows a record and then one from the next lap.

Two comments disagree with the code beside them, and the model follows the code: `HTC_PACKET_ENQUEUE_TO_HEAD` is
described as an enqueue at the tail (`core/htc/htc_packet.h:192`), and `wmi_versions_can_downgrade` carries the
description of the plain comparison (`core/wmi/wmi_tlv_helper.c:1011-1014`).

## Model

| member | source | states |
|---|---|---|
| `DlList.DlNode.constructor` | core/htc/dl_list.h:49-50 | a fresh list head or detached link points to itself both ways |
| `DlList.EmptyIffNoMembers` | core/htc/dl_list.h:60 | the pointer test for emptiness is right, and the head's pointers are first and last member |
| `DlList.ListIsUnique` | core/htc/dl_list.h:68-69 | the pointers of a ring determine its members and their order: no two sequences describe the same heap |
| `DlList.InsertTail` | core/htc/dl_list.h:107-117 | the ring afterwards holds the old members and then the new one |
| `DlList.InsertHead` | core/htc/dl_list.h:122-130 | the ring afterwards holds the new member and then the old ones |
| `DlList.Remove` | core/htc/dl_list.h:136-149 | the neighbours are joined, the node detached, and a second removal of a detached node changes nothing |
| `DlList.RemoveMember` | core/htc/dl_list.h:136-149 | on a ring, removal takes out exactly that member and keeps the order of the others |
| `DlList.RemoveItemFromHead` | core/htc/dl_list.h:154-163 | the first member is taken out and handed over detached; null exactly for an empty ring |
| `DlList.RemoveItemFromTail` | core/htc/dl_list.h:165-174 | the last member is taken out and handed over detached; null exactly for an empty ring |
| `DlList.TransferToTail` | core/htc/dl_list.h:177-190 | the destination is the concatenation destination, source, also if either is empty; the source is empty |
| `DlList.TransferToHead` | core/htc/dl_list.h:193-206 | the destination is the concatenation source, destination, also if either is empty; the source is empty |
| `PacketQueues.PacketQueue.constructor` | core/htc/htc_packet.h:180-184 | an initialized queue is valid and empty |
| `PacketQueues.PacketQueue.IsEmpty` | core/htc/htc_packet.h:198 | the counter test agrees with the pointers and with the sequence |
| `PacketQueues.PacketQueue.Enqueue` | core/htc/htc_packet.h:187-190 | the packet is last, and Depth stays the length |
| `PacketQueues.PacketQueue.EnqueueToHead` | core/htc/htc_packet.h:193-196 | the packet is first, and Depth stays the length |
| `PacketQueues.PacketQueue.PeekHead` | core/htc/htc_packet.h:200-208 | the first packet without removing it; null for an empty queue |
| `PacketQueues.PacketQueue.RemovePacket` | core/htc/htc_packet.h:211-215 | exactly this packet leaves the list it is in; Depth stays the length if that is the list of the queue that is named, and otherwise one counter becomes too small and the other too large |
| `PacketQueues.PacketQueue.Dequeue` | core/htc/htc_packet.h:218-226 | the first packet leaves, null for an empty queue, and Depth stays the length |
| `PacketQueues.PacketQueue.DequeueTail` | core/htc/htc_packet.h:229-237 | the last packet leaves, null for an empty queue, and Depth stays the length |
| `PacketQueues.PacketQueue.TransferAllToTail` | core/htc/htc_packet.h:245-250 | both queues stay valid while everything moves behind the destination's packets |
| `PacketQueues.PacketQueue.TransferAllToHead` | core/htc/htc_packet.h:258-263 | both queues stay valid while everything moves before the destination's packets |
| `TxModel.ConnectEndpoint` | core/htc/htc_services.c:336-344 | an endpoint starts with its allocation, and its credits for a longest message cover that message and are what the sender computes for it |
| `TxModel.CreditsFor` | core/htc/htc_send.c:782-797 | the credits of a transfer are the least number whose bytes cover it |
| `TxModel.RequiredCovers` | core/htc/htc_send.c:782-805 | a packet costs the least number of credits whose bytes cover it with its HTC header, and nothing on endpoint 0 |
| `TxModel.LeastCover` | core/htc/htc_send.c:782-797 | only one number of credits is the least that covers a transfer |
| `TxModel.MaxMessageBoundsRequired` | core/htc/htc_services.c:340-344 | the ceiling in the endpoint setup and the ceiling in the sender agree: no admissible message needs more credits than the threshold |
| `TxModel.TakeFromOrder` | core/htc/htc_send.c:761-862 | a pass takes a prefix of its queue, in order, and leaves the rest |
| `TxModel.TakeFromPays` | core/htc/htc_send.c:803-849 | credits left plus credits charged are the credits before; they never become negative; every packet carries its price |
| `TxModel.TakeFromMarks` | core/htc/htc_send.c:824-831 | a packet asks for credits exactly when the credits left after charging it are at or below the threshold |
| `TxModel.TakeFromStops` | core/htc/htc_send.c:761-823 | a pass goes on as long as it can: it ends with an empty queue, an uncovered head, or a suspended bus |
| `TxModel.GetPacketsStablePartition` | core/htc/htc_send.c:689-722 | with power management packets queued a pass takes only a prefix of those, and leaves the other ones before the remaining packets, each class in order and nothing lost; without, a prefix of the queue |
| `TxModel.GetPacketsPays` | core/htc/htc_send.c:751-865 | the accounting of a pass with promotion, and the flag of the last packet it charged |
| `TxModel.GetPacketsMarks` | core/htc/htc_send.c:824-831 | every packet of a pass, promoted or not, asks for credits exactly when those left after its own charge are at or below the threshold |
| `TxModel.GetPacketsEmptyHanded` | core/htc/htc_send.c:751-823 | a pass over a non-empty queue takes nothing exactly when its effective head is not covered or the bus refuses at once |
| `TxModel.GetPacketsEnds` | core/htc/htc_send.c:715-862 | when a whole pass ends: it has taken all power management packets that were queued or is blocked at the next of them; without any it has emptied the queue, or is blocked, or the bus has granted all it would |
| `TxModel.GetPacketsPromotes` | core/htc/htc_send.c:689-706 | with packets tagged AUTO_PM in the queue of the endpoint that promotes them a pass takes only those; otherwise it takes the front of the queue |
| `TxModel.SelectPartition` | core/htc/htc_send.c:689-706 | splitting a queue by class loses and duplicates nothing |
| `TxModel.AdmitSplitConserves` | core/htc/htc_send.c:987-1067 | admission loses and duplicates nothing whatever the two unlocked depth reads saw, and only packets the callback rejects stay behind |
| `TxModel.AdmitSplitFills` | core/htc/htc_send.c:987-1029 | with an unchanged depth and a callback that rejects all overflow the queue is filled exactly to its limit |
| `TxModel.AdmitSplitInOrder` | core/htc/htc_send.c:1014-1067 | what goes on and what stays are each in the order of the caller's queue, and a packet stays exactly if it finds no room and the callback rejects it |
| `TxModel.FirstMatch` | core/htc/htc_send.c:1752-1769 | the position found is the first with the network buffer, the length if there is none |
| `TxModel.RemoveFirst` | core/htc/htc_send.c:1717-1777 | nothing is removed exactly if nothing matches; what is found has the network buffer |
| `TxModel.RemoveFirstTakesOne` | core/htc/htc_send.c:1752-1769 | behind a front without a match, the match is what is found, and front and back are what is left |
| `TxQueueOps.MoveMatching` | core/htc/dl_list.h:91-98 | a safe iteration that moves packets to another queue moves exactly those asked for, both queues keeping their order |
| `TxQueueOps.ExtractPmPackets` | core/htc/htc_send.c:689-706 | the two queues hold the two classes of the old queue, in order; without promotion nothing moves |
| `TxQueueOps.TakeHead` | core/htc/htc_send.c:851-862 | the head moves to the caller's queue and carries the credits and flag it is given; no other packet changes |
| `TxQueueOps.PassHead` | core/htc/htc_send.c:569-619 | the head of one queue becomes the tail of the other |
| `TxQueueOps.PassBack` | core/htc/htc_send.c:651-656 | a packet leaves the queue it is in, wherever it stands, and becomes the head of another; the queue that is named is counted down even if a search has detached the packet from it |
| `TxQueueOps.WalkTurn` | core/htc/htc_send.c:1752-1768 | a turn of the safe iteration takes out the node it stands at if that is the packet, and otherwise comes to the next |
| `TxQueueOps.SearchAndRemove` | core/htc/htc_send.c:1752-1769 | the loop removes precisely the first packet with the network buffer and keeps all others in order, and changes nothing if there is none |
| `TxQueueOps.HeadOrDetach` | core/htc/htc_send.c:1731-1749 | the head alone leaves if it is the packet, otherwise the whole queue moves, in order |
| `TxQueueOps.DequeueAll` | core/htc/htc_send.c:1913-1921 | a flush empties the queue and completes every packet, in order |
| `TxQueueOps.DequeueGood` | core/htc/htc_send.c:1016-1029 | the packets that fit are the first ones, none if their number is negative |
| `TxQueueOps.IndicateFull` | core/htc/htc_send.c:1033-1067 | the callback's answers split the overflowing packets, both parts in order |
| `TxQueueOps.OverflowSplit` | core/htc/htc_send.c:1014-1067 | the send queue is the fitting packets and then the spared ones; the caller's queue is the rejected ones |
| `TxQueueOps.Admit` | core/htc/htc_send.c:972-1084 | the heap computes AdmitSplit, and reports a drop exactly when nothing got in |
| `TxEndpoints.TxEndpoint.constructor` | core/htc/htc_services.c:336-344 | a connected endpoint shows the initial state of the engine |
| `TxEndpoints.TxEndpoint.Charge` | core/htc/htc_send.c:782-849 | a packet is charged its price, the least number of credits that cover it with its header, if the credits cover that, and nothing changes otherwise |
| `TxEndpoints.TxEndpoint.TakeWhileCovered` | core/htc/htc_send.c:761-862 | the credit loop computes TakeFrom: credits, rest of the queue and packets taken |
| `TxEndpoints.TxEndpoint.TakePmPackets` | core/htc/htc_send.c:715-722 | what a pass leaves of the power management packets goes back before all other packets |
| `TxEndpoints.TxEndpoint.GetHtcSendPacketsCreditBased` | core/htc/htc_send.c:729-870 | the whole pass computes GetPackets, and ends only when it cannot go on |
| `TxEndpoints.TxEndpoint.DrainTurn` | core/htc/htc_send.c:1118-1165 | a turn of the drain loop is the engine's Drain, and the send queue is the drainer's hand |
| `TxEndpoints.TxEndpoint.EnterTrySend` | core/htc/htc_send.c:1094-1114 | the entry section is the engine's Enter: append, elect, drain |
| `TxEndpoints.TxEndpoint.AppendBatch` | core/htc/htc_send.c:1096-1102 | the batch follows what is queued already, in order |
| `TxEndpoints.TxEndpoint.IssueNext` | core/htc/htc_send.c:569-623 | issuing a packet is the engine's Issue, counter included; the packet comes out of the sendQueue and goes into the lookup queue, and no other node changes queues |
| `TxEndpoints.TxEndpoint.ReclaimFailed` | core/htc/htc_send.c:646-658 | a HIF failure is the engine's Reject, whether the packet is in the lookup queue or in the one a search detached: refund, out of that queue, back to the front of the batch, Depth of the lookup queue counted down |
| `TxEndpoints.TxEndpoint.RequeueFailed` | core/htc/htc_send.c:1178-1197 | ending a failed drain is the engine's Requeue: the batch in front of the queue, the process count cleared |
| `TxEndpoints.TxEndpoint.AddCredits` | core/htc/htc_send.c:2015-2032 | an entry of a credit report adds its credits and is the engine's Report; it asks for a kick exactly when there are credits and packets |
| `TxEndpoints.TxEndpoint.LookupBegin` | core/htc/htc_send.c:1726-1750 | the first critical section of a lookup is the engine's Complete, for both queues and both counters, and hands over the packet it removes |
| `TxEndpoints.TxEndpoint.LookupFinish` | core/htc/htc_send.c:1752-1774 | the search and the second critical section are the engine's FinishSearch, for both queues and both counters |
| `TxEndpoints.TxEndpoint.PutBack` | core/htc/htc_send.c:1771-1774 | the searched packets go back in front, and the counters are added |
| `TxEndpoints.TxEndpoint.FlushTx` | core/htc/htc_send.c:1906-1922 | a flush is the engine's Flush |
| `TxHosts.TxHost.constructor` | core/htc/htc_services.c:336-344 | an endpoint and any number of threads start in the initial state of the engine |
| `TxHosts.TxHost.Submit` | core/htc/htc_send.c:972-1084 | a submission by any thread takes the heap from one reachable state of the engine to the next |
| `TxHosts.TxHost.Kick` | core/htc/htc_send.c:1885-1903 | so does the call of htc_try_send without packets |
| `TxHosts.TxHost.Report` | core/htc/htc_send.c:2015-2039 | so does an entry of a credit report, which tells its thread whether to kick |
| `TxHosts.TxHost.Enter` | core/htc/htc_send.c:1094-1165 | so does the entry section, and tells its thread whether it drains |
| `TxHosts.TxHost.Relock` | core/htc/htc_send.c:1118-1197 | so does a further turn of the drain loop |
| `TxHosts.TxHost.Issue` | core/htc/htc_send.c:569-623 | so does issuing a packet |
| `TxHosts.TxHost.Accept` | core/htc/htc_send.c:624-645 | so does its acceptance by HIF |
| `TxHosts.TxHost.Reject` | core/htc/htc_send.c:646-658 | so does its rejection, which finds the packet wherever a search has put it |
| `TxHosts.TxHost.Requeue` | core/htc/htc_send.c:1178-1197 | so does the end of a failed drain |
| `TxHosts.TxHost.Leave` | core/htc/htc_send.c:1378-1394 | so does the completion of what did not get in, packet by packet in order |
| `TxHosts.TxHost.Flush` | core/htc/htc_send.c:1906-1922 | so does a flush, which completes what was queued, in order |
| `TxHosts.TxHost.Complete` | core/htc/htc_send.c:1726-1750 | so does a completion, which hands over the packet or begins a search |
| `TxHosts.TxHost.FinishSearch` | core/htc/htc_send.c:1752-1774 | so does the end of the search, which hands over the packet it found |
| `TxHosts.TxHost.LookupDepth` | core/htc/htc_packet.h:211-215 | on the heap, Depth of TxLookupQueue is its length if and only if HIF refused nothing of a search under way |
| `TxThreads.IssuePackets` | core/htc/htc_send.c:550-668 | the loop is a run of the engine that offers packets until one is refused or none is left |
| `TxThreads.TrySend` | core/htc/htc_send.c:1094-1200 | the drain loop ends, is a run of the engine, and leaves the other threads alone; with nobody draining, an awake bus and a HIF that takes everything it goes on until TxQueue is empty or blocked for credits |
| `TxThreads.SendPktsMultiple` | core/htc/htc_send.c:1296-1400 | a whole submission is a run of the engine from any reachable state, completes exactly what admission leaves, in order, and drains as far as TrySend does; an empty queue is refused |
| `TxSafety.OneDrainerKept` | core/htc/htc_send.c:1104-1197 | every action keeps: TxProcessCount is 0 or 1, and 1 exactly while one thread, the last elected, drains |
| `TxSafety.NoLostWakeupKept` | core/htc/htc_send.c:1094-1197 | every action keeps: an idle endpoint with packets is blocked for credits, or a kick is owed, or a failed or suspended drain was not kicked since |
| `TxSafety.ConservedKept` | core/htc/htc_send.c:1008-1394 | every action keeps: all submitted packets differ and each is in exactly one place |
| `TxOrder.InOrderKept` | core/htc/htc_send.c:1096-1181 | every action keeps, for each class: admitted and not flushed is accepted, then in hand, then queued |
| `TxCredits.CreditsKept` | core/htc/htc_send.c:784-849 | every action keeps the balance of credits with the leak explicit, and when the leak is zero |
| `TxStarvation.ChargesKept` | core/htc/htc_send.c:803-831 | every action keeps: each charge that went out or is in hand asked rightly, and the last charge is the last one out or, after a failed batch was put back, none of them |
| `TxStarvation.PutBackDecides` | core/htc/htc_send.c:1168-1181 | the packet charged last is the last one accepted or in hand if and only if no failed batch was put back since |
| `TxStarvation.NoSilentStarvation` | core/htc/htc_send.c:803-831 | an endpoint that is blocked for a fitting message has the flag on its last charge |
| `TxLookup.LookupKept` | core/htc/htc_send.c:646-658 | every action keeps: both counters are off by the number of packets refused during the search, which is at most one, and what is searched for is not put in the lookup queue meanwhile |
| `TxLookup.WholeKept` | core/htc/htc_send.c:1742-1774 | detached packets and lookup queue together change as one queue would from which a completion takes its first match at one moment |
| `TxTheorems.StepKeepsSound` | core/htc/htc_send.c:1094-1197 | all invariants together survive every action |
| `TxTheorems.SingleDrainer` | core/htc/htc_send.c:1104-1114 | over all interleavings at most one thread is past the busy check, and TxProcessCount says whether one is |
| `TxTheorems.WakeupsAreNotLost` | core/htc/htc_send.c:2015-2039 | in every reachable state without a drainer, a non-empty queue is blocked, or a kick is owed, or the last drain stalled and was not kicked |
| `TxTheorems.KickDrains` | core/htc/htc_send.c:1885-1903 | a kick that finds credits, an awake bus and no drainer takes the effective head off the queue |
| `TxTheorems.DrainTurnIsAPass` | core/htc/htc_send.c:1094-1165 | every turn of the drain loop, on entering and later, takes what a pass can take as far as credits and bus go, keeps each class in order, and pays for it |
| `TxTheorems.FirstInFirstOut` | core/htc/htc_send.c:1096-1181 | admitted packets that were not flushed are accepted, in hand or queued in the order of admission; per class always, over all packets without promotion |
| `TxCaller.SubmitGoesOn` | core/htc/htc_send.c:987-1084 | a call goes on to the lock exactly if one of its packets finds room or is spared; otherwise all its packets stay, in order |
| `TxCaller.BatchGoesInTogether` | core/htc/htc_send.c:1096-1102 | over any run, what a submission gets in waits with its thread, or was appended to TxQueue in a row |
| `TxCaller.AdmittedFirstIsSentFirst` | core/htc/htc_send.c:1096-1181 | of two admitted packets of one class HIF gets the one admitted first before the other, unless a flush takes it |
| `TxCaller.SubmittedFirstIsSentFirst` | core/htc/htc_send.c:1014-1181 | over any run, of two packets of one class that a caller hands over together and that both get in HIF gets the first before the second, unless a flush takes it |
| `TxTheorems.CreditConservation` | core/htc/htc_send.c:648-658 | credits are never negative; held, in hand, sent and leaked credits are the initial ones plus the reported; the leak is absent if and only if no failure left packets behind it or the endpoint is 0 |
| `TxTheorems.AcceptedArePaidFor` | core/htc/htc_send.c:782-849 | in every reachable state, what HIF accepted carries the least number of credits whose bytes cover packet and header |
| `TxTheorems.OwnedExactlyOnce` | core/htc/htc_send.c:1378-1394 | a submitted packet is in exactly one of caller's queue, TxQueue, send queue, lookup queue, detached search or completed, and completed at most once |
| `TxTheorems.AtRestAllCompleted` | core/htc/htc_send.c:1779-1834 | when nothing is queued or under way, every submitted packet has been completed |
| `TxTheorems.StarvationIsAnnounced` | core/htc/htc_send.c:824-831 | a blocked endpoint has its request for credits on the last charge, which went out or is about to if and only if no failed batch was put back since; if one was, the last packet out asked if and only if its own charge left credits at or below the threshold |
| `TxTheorems.RequestsAreRight` | core/htc/htc_send.c:824-831 | in every reachable state, of every packet out or in hand: it asked if and only if its charge left credits at or below the threshold |
| `TxTheorems.DepthIsExactUnlessRefused` | core/htc/htc_send.c:651-656 | in every reachable state Depth of the lookup queue is its length if and only if nothing was refused during the search under way; else it is one too small and that of the detached queue one too large |
| `TxTheorems.CompletionsAreAtomic` | core/htc/htc_send.c:1717-1777 | over any run the lookup queue is what it would be if it were never detached |
| `TxTheorems.CompletionRemovesFirstMatch` | core/htc/htc_send.c:1726-1774 | from a completion to the end of its search, whatever is issued and refused between: the old queue with those changes, less its first match, which is the packet completed |
| `TxTheorems.OutstandingIsExact` | core/htc/htc_send.c:1728-1729 | in every reachable state ul_outstanding_cnt is the number of packets waiting for completion, detached ones included, less the completions that matched nothing and the one that is searching |
| `TxWalks.StepKeepsWalk` | core/htc/htc_send.c:1752-1774 | every turn, and everything that comes between turns, keeps: what the walk has passed holds no match, and with what is ahead it is the detached packets; it goes astray exactly when HIF refuses the packet it stands at |
| `TxWalks.FineRunIsRun` | core/htc/htc_send.c:1752-1774 | a run with the walk taken apart is a run of the engine with the same states, so all theorems hold of it |
| `TxWalks.EngineIsShown` | core/htc/htc_send.c:1752-1774 | and every reachable state of the engine comes up in such a run |
| `TxWalks.AstrayExactlyIfMisled` | core/htc/htc_send.c:646-658 | over any run the walk leaves the detached queue, and never comes back, if and only if HIF refuses a packet while the walk stands at it |
| `TxWalks.WalkFindsFirstMatch` | core/htc/htc_send.c:1752-1774 | a walk that ends has found the first match of the whole queue, if there is one, and leaves the rest in order, whatever was issued or refused between its turns |
| `TxWalks.WalksAreAtomic` | core/htc/htc_send.c:1717-1777 | over any run, node by node, the lookup queue is what it would be if it were never detached |
| `TxWalks.OnlyRepeatedCompletionsGoAstray` | core/htc/htc_send.c:1799-1806 | a walk that is astray searches for a packet that HIF completed before |
| `TxWalks.WalkEnds` | core/htc/htc_send.c:1752-1769 | a walk that does not go astray takes at most one turn more than packets were detached |
| `TxWalkOps.TurnOnHeap` | core/htc/htc_send.c:1752-1768 | a turn on the heap is a turn of the walk |
| `TxWalkOps.LoopEnds` | core/htc/htc_send.c:1752-1769 | the loop test fails exactly when the walk has passed everything |
| `TxWalkOps.RefuseOnHeap` | core/htc/htc_send.c:651-656 | a refusal of a detached packet moves the place of an iteration as the walk says; pTemp is in the ring of the sendQueue afterwards exactly if it pointed to that packet |
| `TxWalkOps.RoundAndRound` | core/htc/dl_list.h:91-98 | an iteration that has come into the ring of one queue stays in it, and its test for the head of another never fails |
| `TxExamples.FailureLeaksCredits` | core/htc/htc_send.c:648-658 | a run of one thread in which a failure in a batch of two loses the credits of the second packet |
| `TxExamples.FailureCanStarveInSilence` | core/htc/htc_send.c:1168-1181 | a run that ends blocked with a last sent packet that does not ask for credits |
| `TxExamples.RefusedWhileDetached` | core/htc/htc_send.c:646-658 | a run with three packets, the third refused while the second is searched for, that ends with Depth -1 for an empty lookup queue |
| `TxExamples.RepeatedCompletionGoesAstray` | core/htc/htc_send.c:1752-1769 | a run in which HIF completes a packet twice and refuses the next one under the second search, which goes astray |
| `Trailer.ParseSound` | core/htc/htc_recv.c:680-740 | a trailer is its records followed by a rest that does not begin with a whole record |
| `Trailer.ParseUnique` | core/htc/htc_recv.c:680-740 | encoded records are read back as they were: a trailer has one reading |
| `Trailer.Reports` | core/htc/htc_send.c:1968-1977 | the reports of a record are its entries up to the first that names no endpoint |
| `Trailer.ReportsRoundTrip` | core/htc/htc_send.c:1968-1977 | reports are read back as a target writes them |
| `Trailer.ReportsInRecord` | core/htc/htc_recv.c:706-722 | a CREDITS record says what its reports say, and a record with another id nothing |
| `Trailer.GrantedOne` | core/htc/htc_send.c:1979-2015 | a report grants the endpoint it names its credits, and others nothing |
| `Trailer.ReportsIgnoreRemainder` | core/htc/htc_recv.c:706-714 | bytes after the last whole report have no effect |
| `Trailer.Target.ProcessCreditRpt` | core/htc/htc_send.c:1953-2050 | every endpoint gains exactly what the reports of the record grant it |
| `Trailer.Target.ProcessTrailer` | core/htc/htc_recv.c:657-749 | the loop ends, and every endpoint gains exactly what the CREDITS records of the longest well-formed prefix grant it; success exactly if nothing is left over |
| `Trailer.Locate` | core/htc/htc_recv.c:305-387 | the checks of the receive handler tell bad frames, frames without a trailer and bad trailers apart, each both ways, and put a trailer of the length given inside the network buffer, at the end of the payload |
| `Trailer.FrameRoundTrip` | core/htc/htc_recv.c:366-387 | the trailer of a frame built from header, payload and records is found and read back, whatever follows the frame |
| `Trailer.PlainFrameRoundTrip` | core/htc/htc_recv.c:305-387 | a frame built without trailer and flag is known to have none, whatever follows it; cut short or for no endpoint it is bad |
| `Trailer.Target.RxCompletionHandler` | core/htc/htc_recv.c:303-399 | status and credits for each kind of frame; a frame without a valid trailer changes no credits |
| `TxReports.ReportedIsReceived` | core/htc/htc_send.c:2015-2022 | over any run the credits reported are those of the reports in it |
| `TxReports.BytesAccountForCredits` | core/htc/htc_send.c:1953-2050 | when the reports of a run are the entries in the trailers of the target, the credits of the endpoint, with what is in hand, sent and leaked, are the initial ones and what the bytes grant, whatever is sent between the entries |
| `TxReports.CreditsCoverTheFrame` | core/htc/htc_send.c:782-797 | the credits of a packet that HIF accepted are the least number whose bytes cover the frame sent for it |
| `TlvTable.HeadRoundTrip` | core/wmi/wmi_tlv_helper.c:36-45 | id and count of a packed head word read back |
| `TlvTable.AttrRoundTrip` | core/wmi/wmi_tlv_helper.c:39-45 | packed attributes read back if and only if every field fits its bits |
| `TlvTable.GetAttributes` | core/wmi/wmi_tlv_helper.c:95-164 | on any flattened list of entries the walk gives attribute k of the first entry with the 24-bit id, fails exactly without such an entry or attribute, and writes exactly the fields the code writes |
| `TlvTable.LookupSkipsOthers` | core/wmi/wmi_tlv_helper.c:111-157 | entries for other commands, wherever they stand, do not affect a lookup |
| `TlvTable.LookupTakesFirst` | core/wmi/wmi_tlv_helper.c:111-157 | the first entry for a command shadows later ones |
| `TlvTable.LookupGives` | core/wmi/wmi_tlv_helper.c:111-157 | for a listed command a lookup gives the number of attributes, and the attribute asked for field by field, and fails exactly if there is none of that order |
| `TlvTable.LookupFails` | core/wmi/wmi_tlv_helper.c:95-164 | for a command that is not listed it fails and writes nothing |
| `TlvCheck.FirstTlvSound` | core/wmi/wmi_tlv_helper.c:197-202 | a buffer is its first TLV, as its header describes it, followed by the rest |
| `TlvCheck.FirstTlvUnique` | core/wmi/wmi_tlv_helper.c:197-202 | an encoded TLV is read back as it was |
| `TlvCheck.MatchesIfFilled` | core/wmi/wmi_tlv_helper.c:221-378 | what is accepted for an attribute is exactly: a structure of its size with header; its number of elements of its size, bytes filled up to a multiple of four; or any number of elements of its size, structures each with a header |
| `TlvCheck.ConformsIfMessage` | core/wmi/wmi_tlv_helper.c:196-387 | the buffers that conform are exactly the messages that a sender can build that way |
| `TlvCheck.ConformsStep` | core/wmi/wmi_tlv_helper.c:196-387 | being a sequence of TLVs that match the attributes can be decided one TLV at a time, in both directions |
| `TlvCheck.InnerStep` | core/wmi/wmi_tlv_helper.c:304-341 | being a sequence of structures of one size can be decided one structure at a time, in both directions |
| `TlvCheck.CheckInnerTlvs` | core/wmi/wmi_tlv_helper.c:304-341 | the inner loop accepts exactly the values that are sequences of TLVs of the structure's size |
| `TlvCheck.CheckTlv` | core/wmi/wmi_tlv_helper.c:227-382 | the checks on one TLV accept exactly what matches its attributes |
| `TlvCheck.CheckTlvParams` | core/wmi/wmi_tlv_helper.c:171-398 | the validator returns 0 if and only if the command is listed and the buffer is a message that a sender can build for its attributes, followed by fewer bytes than a header; all reads are in the buffer and the index stays a multiple of 4 |
| `TlvPad.PaddedAt` | core/wmi/wmi_tlv_helper.c:643-664 | element k of the fitted array is the first min(s, e) bytes of original element k, zero-extended |
| `TlvPad.GrowThenShrink` | core/wmi/wmi_tlv_helper.c:671-755 | growing an array and shrinking it again gives the original elements |
| `TlvPad.CopyElement` | core/wmi/wmi_tlv_helper.c:643-664 | copying the shorter of the two sizes into zeroed memory fits an element |
| `TlvPad.PadByCopy` | core/wmi/wmi_tlv_helper.c:624-664 | the allocating variant computes the fitted array |
| `TlvPad.GrowElement` | core/wmi/wmi_tlv_helper.c:696-723 | one turn of the growing loop fits one element and keeps all bytes behind it |
| `TlvPad.GrowInPlace` | core/wmi/wmi_tlv_helper.c:671-729 | the in-place variant computes the same fitted array, and all following bytes are intact, shifted by n times the difference |
| `TlvPad.ShrinkElement` | core/wmi/wmi_tlv_helper.c:738-755 | one turn of the shrinking loop fits one element and keeps the elements behind it |
| `TlvPad.ShrinkInPlace` | core/wmi/wmi_tlv_helper.c:730-755 | for an array of at least one element the shrinking loop computes the same fitted array |
| `WmiVersion.VersionRoundTrip` | core/wmi/wmi_tlv_helper.c:1022-1027 | major and minor version read back from the packed word exactly if they fit |
| `WmiVersion.FindEntry` | core/wmi/wmi_tlv_helper.c:1067-1096 | the search succeeds exactly if a whitelist entry permits the step |
| `WmiVersion.DowngradesByOwnEntries` | core/wmi/wmi_tlv_helper.c:1015-1112 | the host can step down if and only if name spaces and majors agree and the whitelist has, for each minor above the opponent's, the entry of its own major, that minor and its own name space |
| `WmiVersion.OtherEntriesDoNotMatter` | core/wmi/wmi_tlv_helper.c:1067-1096 | an entry of another name space, major or minor, wherever it stands, changes neither the answer nor how far down it leads |
| `WmiVersion.CompatibleIfSame` | core/wmi/wmi_tlv_helper.c:993-1008 | compatible versions differ at most in the build |
| `WmiVersion.VersionsCanDowngrade` | core/wmi/wmi_tlv_helper.c:1015-1112 | 1 if and only if name spaces and majors agree and every minor in (opp, my] is whitelisted; on an attempt the output minor is the least one not below the opponent's that can be reached |
| `WmiVersion.MoreEntriesReachLower` | core/wmi/wmi_tlv_helper.c:1061-1100 | a longer whitelist never ends higher and never turns success into failure |
| `WmiVersion.CmpAndSetAbiVersion` | core/wmi/wmi_tlv_helper.c:1122-1190 | success exactly if the version handed out is compatible with the opponent's, which is exactly when the versions agree or the whitelist allows stepping down |
| `CdfMutex.MoveKeepsRight` | core/cdf/src/cdf_lock.c:133-333 | each single read or write keeps what ties owner, state and refcount to where the thread is, unless refcount wraps |
| `CdfMutex.MoveKeepsOthers` | core/cdf/src/cdf_lock.c:133-333 | and what is so of every other thread |
| `CdfMutex.MutualExclusion` | core/cdf/src/cdf_lock.c:158-185 | over all interleavings at most one thread is inside the lock |
| `CdfMutex.RefcountIsDepth` | core/cdf/src/cdf_lock.c:158-185 | m_lock is taken exactly while a thread is inside, and refcount is the nesting depth of the owner |
| `CdfMutex.FastPathOnlyByOwner` | core/cdf/src/cdf_lock.c:158-167 | the unlocked fast path is taken only by the thread that has the lock |
| `CdfMutex.ReleasedAtOutermost` | core/cdf/src/cdf_lock.c:252-269 | an owner stays owner through every step of the system except the end of its own outermost release |
| `CdfMutex.NonOwnerChangesNothing` | core/cdf/src/cdf_lock.c:240-251 | a release by a thread that does not own the lock changes nothing and reports an error |
| `CdfMutex.ReturnsWhatItDid` | core/cdf/src/cdf_lock.c:133-333 | Success of an acquire is one level more, of a release one less, of a destroy a destroyed lock, and an error is no change; Invalid is for an uninitialized lock only |
| `CdfMutex.NoAcquireAfterDestroy` | core/cdf/src/cdf_lock.c:181-193 | on a destroyed lock no acquire succeeds, and it stays destroyed until it is initialized again |
| `CdfMutex.DestroyDestroys` | core/cdf/src/cdf_lock.c:319-332 | a successful destroy leaves the lock destroyed and uninitialized |
| `CdfMutex.WrapsAtDepth256` | core/cdf/src/i_cdf_lock.h:67-73 | refcount wraps exactly when an owner 255 deep acquires again |
| `CdfMutex.FromStartCountsRightUnlessWrapped` | core/cdf/src/cdf_lock.c:158-160 | refcount is the depth of the idle owner in every state of a run if and only if the run does not wrap it |
| `CdfMutex.Nest` | core/cdf/src/cdf_lock.c:158-167 | a thread can come to have the lock any number of times up to 255 |
| `CdfMutex.OverflowFreesHeldLock` | core/cdf/src/cdf_lock.c:158-160 | beyond that, one acquire and one release free a lock its owner still counts on 255 times |
| `CdfMutex.TwoThreadsInside` | core/cdf/src/cdf_lock.c:158-185 | a run from the initialized lock that ends with two threads inside |
| `CdfMutex.SoloIsRun` | core/cdf/src/cdf_lock.c:133-333 | an operation without interference is a run of the system |
| `CdfMutex.SoloAcquire` | core/cdf/src/cdf_lock.c:133-194 | an acquire without interference, field by field: refused, nested, taken or destroyed |
| `CdfMutex.SoloRelease` | core/cdf/src/cdf_lock.c:210-276 | a release without interference, field by field: refused, one level less or free |
| `CdfMutex.SoloDestroy` | core/cdf/src/cdf_lock.c:297-333 | a destroy without interference, field by field: refused, busy or destroyed |
| `CdfMutex.Mutex.Initialize` | core/cdf/src/cdf_lock.c:88-118 | an initialized lock is refused, any other becomes released and unowned |
| `CdfMutex.Mutex.AcquireFree` | core/cdf/src/cdf_lock.c:133-194 | an acquire that need not wait does what its steps do one after the other |
| `CdfMutex.Mutex.ReleaseIt` | core/cdf/src/cdf_lock.c:210-276 | a release does what its steps do one after the other |
| `CdfMutex.Mutex.DestroyIt` | core/cdf/src/cdf_lock.c:297-333 | a destroy does what its steps do one after the other |
| `TraceRing.SlotBack` | core/cdf/src/cdf_trace.c:629-637 | where the record d before the newest is, with and without a wrap |
| `TraceRing.CoveredIs` | core/cdf/src/cdf_trace.c:629-631 | a dump covers everything stored for count 0, and otherwise the lesser of count and num |
| `TraceRing.NewestAre` | core/cdf/src/cdf_trace.c:626-637 | the newest records are as many as asked for, and the end of the log |
| `TraceRing.ShownConcat` | core/cdf/src/cdf_trace.c:647-665 | records are filtered one by one, in order |
| `TraceRing.ShownOne` | core/cdf/src/cdf_trace.c:647-665 | and one is shown exactly if its code and module are asked for and the module has a callback |
| `TraceRing.Ring.constructor` | core/cdf/src/cdf_trace.c:467-481 | an empty ring of any size |
| `TraceRing.Ring.Trace` | core/cdf/src/cdf_trace.c:497-547 | the record is appended to the log unless tracing is off or the module has no callback; the newest records stay in their slots |
| `TraceRing.Ring.Advance` | core/cdf/src/cdf_trace.c:514-536 | head, tail and num after one record more, in every wraparound case |
| `TraceRing.Ring.StartIndex` | core/cdf/src/cdf_trace.c:626-637 | a dump starts at the slot of the oldest record it covers |
| `TraceRing.Ring.ReadNext` | core/cdf/src/cdf_trace.c:669-678 | the next record read is the newest in its slot, whatever was recorded since the last |
| `TraceRing.Ring.Replay` | core/cdf/src/cdf_trace.c:639-679 | the loop ends at what was the tail, and shows the records asked for of those it reads, while others record |
| `TraceRing.Ring.DumpAll` | core/cdf/src/cdf_trace.c:603-683 | a dump visits min(count, num) slots, all stored ones for count 0, from the oldest to what was the newest, and shows what it reads there with the code and module asked for, never more than count; numSinceLastDump counts what is recorded meanwhile |
| `TraceRing.DumpShowsLaterLap` | core/cdf/src/cdf_trace.c:669-678 | what is read in place of a record is the last one a whole number of laps later, and the record itself if and only if less than a lap was recorded after it |
| `TraceRing.DumpIsExact` | core/cdf/src/cdf_trace.c:639-679 | a whole dump finds the very records it set out to show if and only if less than a lap is recorded after each of them before it is read; then it shows them, in order |
| `TraceRing.LateDumpDiffers` | core/cdf/src/cdf_trace.c:639-679 | if all records differ, a dump that shows what was there has read all of it in time |
| `TraceRing.DumpCanMixLaps` | core/cdf/src/cdf_trace.c:669-678 | two records in a table of two, and two more recorded before the second is read: the dump shows the first and the fourth |
| `TraceRing.DumpShowsNewest` | core/cdf/src/cdf_trace.c:626-679 | read in time, and so without recording meanwhile, a dump visits exactly the newest records, oldest first |
| `TraceRing.ShownAll` | core/cdf/src/cdf_trace.c:647-665 | without a code or a module mask every record of a registered module is shown |

## Left out

- TxThreads.SendPktsMultiple: nobody else acts between its steps; that others may is the subject of TxTheorems.
- TX bundling (`htc_issue_packets_bundle`): `HTC_TX_BUNDLE_ENABLED` is taken as off.
- `htc_send_data_pkt`, endpoints without credit flow (`get_htc_send_packets`) and the USB pipe scheduler.
- Headers, sequence numbers, DMA mapping and headroom of network buffers; runtime power management reference counts; statistics, poll timers and debug output; `htc_stop` during traffic.
- The SDIO alternate credit size, which changes the credit size after the threshold was computed.
- The transfer of a failed batch to the head of TxQueue (core/htc/htc_send.c:1178) is made without the lock; the model takes it as part of the critical section that follows.
- Completions on one endpoint are serialized, HIF completes only packets it accepted, and every submission has a network buffer of its own.
- TxHosts.TxHost.FinishSearch: makes one step of the walk over the detached packets; TxWalks takes it apart, and proves that the engine then has the same states, unless the walk goes astray.
- TxTheorems.CompletionsAreAtomic: makes one step of the walk; TxWalks.WalksAreAtomic says it node by node.
- TxTheorems.CompletionRemovesFirstMatch: makes one step of the walk; TxWalks.WalkFindsFirstMatch says it node by node.
- TxWalks.AstrayExactlyIfMisled: does not say what a walk reads that takes the head of the sendQueue for a packet; that it could hold the network buffer by chance is left out.
- Message lengths, credits and counters of the transmit engine are unbounded integers; the source uses `int` and `unsigned int`.
- Trailer.Target.ProcessCreditRpt: leaves out the `htc_try_send` between the entries; in the engine it is the kick that Report owes, and TxReports.BytesAccountForCredits is about runs with any sends between the entries.
- Trailer.Target.RxCompletionHandler: stops before the delivery of the payload; scatter-gather reassembly (`RX_SG_SUPPORT`) is left out.
- TxReports.BytesAccountForCredits: takes the trailers one after the other, as the receive path delivers them.
- The command and event definitions that fill the attribute table: the table is any list of entries; TlvCheck.CheckTlvParams asks that an array of varying length has elements and an array of structures elements with a header, as `sizeof` gives.
- TlvPad.ShrinkInPlace: stops before the move of the TLVs behind the array (core/wmi/wmi_tlv_helper.c:757-773), whose offset is a negative number times an unsigned one, and asks for at least one element, because the loop bound n - 1 is unsigned.
- TlvPad.GrowInPlace: is about the first array of a message that grows; `param_buf_len` is not updated for a second one.
- The walk of `wmitlv_check_and_pad_tlvs` over a whole message, its bookkeeping of pointers, and `wmitlv_free_allocated_tlvs`.
- `cdf_mutex_init` while another thread uses the lock, null pointers and interrupt context in the mutex; a thread's process id is not 0.
- CdfMutex.Mutex.AcquireFree: does not wait; waiting is in the transition system, where the step that takes m_lock is enabled only when it is free.
- TraceRing.Ring.DumpAll: no module is registered and tracing is not switched off while a dump runs.
- Time and thread of a trace record; module masks are sets; `cdf_dp_trace`, whose ring is the same.
- TSO segmentation, firmware download, register tables, timers and wake locks.
