# A verified model of the TCP/IP stack

This project models the parts of the stack under `ChinaOS/ethernet` whose correctness is hardest to
see, and proves what they promise for all inputs and all runs.

- `Words.dfy`, `Options.dfy`: 16- and 32-bit words, TCP's serial-number comparisons, and optional
  values.
- `TcpReceive.dfy`: out-of-order reassembly and the receive window.
- `TcpSend.dfy`, `TcpSendRuns.dfy`: segmentation, sending, acknowledgement and retransmission; the
  second file holds what every run of these calls keeps.
- `SelectWakeup.dfy`: the wake-up protocol between `lwip_select` and `event_callback`, one step for
  each protected section.
- `Heap.dfy`: the first-fit heap. The port itself is configured to use the C library's allocator;
  the heap is modelled in its default configuration, for heap sizes up to 64000 bytes.
- `Pbuf.dfy`, `PbufCopy.dfy`: reference-counted packet buffers and copying in and out of chains.
- `Checksum.dfy`: the Internet checksum, flat, over chains, incremental and on the fly.
- `Netconn.dfy`: the operations of a TCP netconn and the callbacks that finish them.
- `SocketStream.dfy`: stream reads from a TCP socket.
- `Slip.dfy`: SLIP framing.
- `Timers.dfy`: the delta list of timeouts.
- `NewPort.dfy`: the search for a local port.

Linked lists are sequences. Where the source keeps fields in an object, thin classes hold the same
fields and hand them to methods over values; these methods carry the loops of the source and are
proved against functions on the old state. Allocation that may fail, waiting times, the network and
concurrent callers are nondeterministic choices or parameters. Sequence numbers are unwrapped
integers; every comparison goes through the 32-bit difference the code computes, except the one place
where the code itself compares raw values. `TCP_MSS`, `TCP_WND`, `TCP_SND_BUF`, `TCP_SND_QUEUELEN`,
`PBUF_POOL_BUFSIZE` and `PBUF_LINK_HLEN` have the values of `ChinaOS/ethernet/include`.

Places where the code does not do what it is meant to; each is stated with the exact condition:

- `tcp_in.c:1439` compares raw 32-bit values. When the window wraps around zero behind a segment that
  is appended to the out-of-sequence queue, the segment claims more bytes than it has
  (`TcpReceive.MisfiresOnWrap`, `TcpReceive.MisqueuedExample`).
- `tcp_out.c:1266` may move a segment that others follow to an empty unsent queue. If the window keeps
  it there, `tcp_write` puts new bytes behind it, and `tcp_send_fin` a FIN
  (`TcpSendRuns.RexmitTail`, `TcpSendRuns.WriteKeepsExactly`, `TcpSendRuns.FinHungKeepsExactly`,
  `TcpSendRuns.MisplacedExample`).
- `tcp_in.c:1033` takes an acknowledgement number half the sequence space old for one that covers a
  segment that was never sent (`TcpSendRuns.AckKeepsExactly`, `TcpSendRuns.MisjudgedExample`).
- `tcp_in.c:1526` takes over a segment size that queued segments may exceed; the room computed at
  `tcp_out.c:427` then wraps in 16 bits and the last unsent segment grows further
  (`TcpSendRuns.ResizeKeepsExactly`, `TcpSend.GrownFitsExactly`, `TcpSendRuns.ResizeExample`).
- `tcp_in.c:1345` queues a first out-of-sequence segment that reaches across the right edge unclipped.
  When it is delivered, `rcv_wnd` wraps (`TcpReceive.PlaceWithinExactly`, `TcpReceive.SpilledExample`).
- `pbuf_dechain` counts the deallocated pbufs in eight bits and returns a pointer to freed memory when
  their number is a positive multiple of 256 (`Pbuf.DechainAnswer`, `Pbuf.DanglingExample`).
- `pbuf_copy` takes a chain that ends in an empty link for a packet queue, or runs behind the end of
  the target (`PbufCopy.CopiesExactly`, `PbufCopy.NullTargetExample`).
- `lwip_recvfrom` credits peeked bytes to the receive window, and again when they are read
  (`SocketStream.CreditExact`).
- `mem_malloc` and `mem_trim` align requests of 65533 to 65535 bytes to zero and go on with the
  minimum size, against their comments (`Heap.RoundedCovers`, `Heap.OversizeRefused`).
- `ip_forward` decrements a time to live of zero to 255 and forwards the packet with a wrong checksum
  (`Checksum.Forward`).
- `icmp_input` updates the checksum of an echo request whose other bytes are all zero to 0, where
  recomputation gives 0xffff (`Checksum.EchoReply`).
- `slipif_input` delivers up to 1501 bytes and cuts longer packets off there, where the limit is 1500
  (`Slip.RoundTrip`).
- A write that fails after it has handed over some bytes leaves `write_offset` behind, which later
  assertions forbid (`Netconn.OffsetAfterWrite`, `Netconn.OffsetLeftExample`).

## Model

| member | source | states |
|---|---|---|
| Words.SerialComparisonSeesResidues | ChinaOS/ethernet/include/lwip/tcp_impl.h:92-101 | the signed-difference comparisons depend only on 32-bit residues, so unwrapped sequence numbers take the code's branches |
| TcpReceive.OosInsertSegment | ChinaOS/ethernet/core/tcp_in.c:796-828 | the loop over the segments behind computes the covering insertion: covered segments go and hand on their FIN, the new one is cut at the first that stays |
| TcpReceive.InsertBeforeHolds | ChinaOS/ethernet/core/tcp_in.c:796-828 | that insertion leaves a queue that is ordered, disjoint and byte-correct and holds exactly what both held |
| TcpReceive.Locate | ChinaOS/ethernet/core/tcp_in.c:1360-1426 | the walk finds the one arm and position that fit the new segment |
| TcpReceive.PlaceHolds | ChinaOS/ethernet/core/tcp_in.c:1360-1455 | placing an out-of-sequence segment keeps the queue ordered, disjoint, above rcv_nxt and byte-correct; it holds the union of both except a never acknowledged tail of the segment in front |
| TcpReceive.PlacedWhereFound | ChinaOS/ethernet/core/tcp_in.c:1360-1426 | the arm found in place is the recursive placement |
| TcpReceive.Store | ChinaOS/ethernet/core/tcp_in.c:1344-1465 | storing places the segment, and only without memory leaves the queue alone |
| TcpReceive.StoredBytes | ChinaOS/ethernet/core/tcp_in.c:1344-1465 | a stored segment is held with all its bytes below the right edge; nothing else is added, and only bytes behind its end are lost, from a segment it starts in |
| TcpReceive.MisfiresOnWrap | ChinaOS/ethernet/core/tcp_in.c:1439-1455 | the overrun test on raw values fires wrongly exactly when the right edge has wrapped past zero and the segment's end has not |
| TcpReceive.MisfireBreaks | ChinaOS/ethernet/core/tcp_in.c:1439-1455 | a wrong firing always leaves a queued segment that claims more bytes than it has |
| TcpReceive.MisqueuedExample | ChinaOS/ethernet/core/tcp_in.c:1439-1455 | a run that queues one segment just below the wrap, and a next one for which that happens; rcv_nxt then passes bytes never handed over |
| TcpReceive.PlaceWithinExactly | ChinaOS/ethernet/core/tcp_in.c:1344-1455 | a queue within the window stays within it if and only if the new segment is not queued with an end beyond the right edge, unclipped |
| TcpReceive.SpilledExample | ChinaOS/ethernet/core/tcp_in.c:1344-1346 | a first segment queued across the edge: once the bytes in front of it arrive, more than the window is delivered and the 16-bit rcv_wnd wraps |
| TcpReceive.ChainDelivers | ChinaOS/ethernet/core/tcp_in.c:1297-1331 | draining the queue from rcv_nxt hands over exactly the contiguous run that is held, and keeps exactly what lies beyond |
| TcpReceive.MergedDelivers | ChinaOS/ethernet/core/tcp_in.c:1217-1331 | an in-sequence segment merged with the queue delivers exactly what both together cover from rcv_nxt on |
| TcpReceive.Absorb | ChinaOS/ethernet/core/tcp_in.c:1217-1262 | the adjustment loop merges segment and queue without losing or repeating a held byte |
| TcpReceive.Accept | ChinaOS/ethernet/core/tcp_in.c:1188-1331 | in-sequence delivery: cut to the window, merged, drained; rcv_wnd shrinks by what was taken in 16 bits, and a sound window with the queue inside keeps its edge, stays sound and announces no small advance |
| TcpReceive.ReceiveSegment | ChinaOS/ethernet/core/tcp_in.c:1091-1478 | one segment as it arrives: if it reaches rcv_nxt it is received up to its end, FIN included, or to the right edge; ahead of it it is queued when there is memory; any other is answered. Reassembly stays byte-correct if and only if it was not queued while the window wraps, and the queue stays within a guarded window if and only if it was not queued across the edge |
| TcpReceive.InSequenceProgress | ChinaOS/ethernet/core/tcp_in.c:1188-1331 | an in-sequence segment moves rcv_nxt to its end or to the right edge |
| TcpReceive.StepKeeps | ChinaOS/ethernet/core/tcp_in.c:1091-1478 | the reassembly invariant is kept by any step that satisfies the contract of ReceiveSegment |
| TcpReceive.RunDeliversPrefix | ChinaOS/ethernet/core/tcp_in.c:1091-1478 | over any run of reordered, repeated and overlapping segments, with the window returned and announced in between, everything handed over is the stream up to rcv_nxt |
| TcpReceive.UpdateRcvAnnWnd | ChinaOS/ethernet/core/tcp.c:543-564 | the announced window after an update, and that it is sound |
| TcpReceive.TakeOver | ChinaOS/ethernet/core/tcp_in.c:1267-1273 | received sequence space leaves the window in 16 bits; if it fits, the right edge stays and the window is sound and announces no small advance |
| TcpReceive.SendEmptyAck | ChinaOS/ethernet/core/tcp_out.c:836-880 | an acknowledgement that is sent announces the window and never moves the edge left |
| TcpReceive.ReturnWindow | ChinaOS/ethernet/core/tcp.c:575-600 | tcp_recved: the window grows by what was consumed up to TCP_WND and is updated; an inflation of a quarter window is announced or flagged at once |
| TcpReceive.ProcessedKeeps | ChinaOS/ethernet/core/tcp_in.c:302-385 | after any segment through tcp_receive, with the credit for its FIN, reassembly and window are intact if and only if the segment was neither queued across the edge nor while the window wraps |
| TcpReceive.CallKeeps | ChinaOS/ethernet/core/tcp.c:543-600 | an arriving segment, tcp_recved and a segment sent each keep reassembly, the window and the queue within it, and never move the announced edge left or by too little |
| TcpReceive.ConnectionRun | ChinaOS/ethernet/core/tcp_in.c:302-385 | in any run of arriving segments, tcp_recved calls and segments sent from the SYN on: what was delivered is the stream up to rcv_nxt, the queue lies within the window, ann_wnd <= wnd <= TCP_WND, the announced right edge never moves left, and an advance is at least half the window or one segment unless it only catches up with rcv_nxt |
| TcpReceive.WindowConserved | ChinaOS/ethernet/core/tcp_in.c:376-385 | in such a run the window is TCP_WND less what was handed over and not returned, a FIN not counted |
| TcpReceive.CreditFinHolds | ChinaOS/ethernet/core/tcp_in.c:376-385 | the credit for a FIN keeps reassembly and window sound |
| TcpReceive.ReceivePcb.Input | ChinaOS/ethernet/core/tcp_in.c:302-385 | the same in the fields of the control block, whose invariant holds afterwards if and only if the segment does not spoil the queue |
| TcpReceive.ReceivePcb.Recved | ChinaOS/ethernet/core/tcp.c:575-600 | tcp_recved on the fields, keeping that invariant |
| TcpReceive.ReceivePcb.Announce | ChinaOS/ethernet/core/tcp_out.c:106-111 | sending a segment announces the window, keeping that invariant |
| TcpSend.Prealloc | ChinaOS/ethernet/core/tcp_out.c:216-255 | payload and spare room together never exceed the maximum asked for, and there is spare room exactly where more data is to be expected |
| TcpSend.ExtendTail | ChinaOS/ethernet/core/tcp_out.c:397-486 | phases 1 and 2 put exactly the bytes behind the last unsent segment that its 16-bit arithmetic gives, and leave spare room only when all bytes are placed; a segment that fits still fits |
| TcpSend.GrownIsRoom | ChinaOS/ethernet/core/tcp_out.c:423-462 | a last unsent segment that fits the segment size grows up to it and no further |
| TcpSend.GrownFitsExactly | ChinaOS/ethernet/core/tcp_out.c:423-462 | after that the segment fits if and only if it did together with the spare room used; otherwise the room has wrapped |
| TcpSend.NewMss | ChinaOS/ethernet/core/tcp_in.c:1522-1527 | the segment size an option gives is positive and at most TCP_MSS and the limit of the route |
| TcpSend.CutSegments | ChinaOS/ethernet/core/tcp_out.c:500-588 | phase 3: new segments tile the remaining bytes, none empty or longer than mss, and the pbuf limit holds |
| TcpSend.PbufsForIs | ChinaOS/ethernet/core/tcp_out.c:500-588 | the new segments are as many as mss goes into the remaining bytes, rounded up, with one pbuf each or two without a copy |
| TcpSend.Write | ChinaOS/ethernet/core/tcp_out.c:351-702 | tcp_write is a transaction: on error nothing but a flag changes; on success the unsent bytes grow by exactly the argument, tiled up to the new snd_lbb, and a last segment that fits mss still does; unless an allocation fails it succeeds if and only if the checks do and the pbufs needed fit the limit |
| TcpSend.EnqueueFlags | ChinaOS/ethernet/core/tcp_out.c:715-805 | one flag segment at snd_lbb exactly if queue, buffer and memory have room, otherwise no change |
| TcpSend.Close | ChinaOS/ethernet/core/tcp_out.c:123-139 | the FIN rides on the last unsent segment or gets one of its own, and when neither is possible |
| TcpSend.Splice | ChinaOS/ethernet/core/tcp_out.c:1278-1285 | the pointer-to-pointer loop is sorted insertion |
| TcpSend.Output | ChinaOS/ethernet/core/tcp_out.c:892-1031 | nothing happens while input is processed or when only an acknowledgement is due; otherwise segments are sent from the head while window and Nagle's rule allow, and sending stops only for one of these reasons |
| TcpSend.Rexmit | ChinaOS/ethernet/core/tcp_out.c:1266-1298 | the first unacknowledged segment goes to its sorted place in the unsent queue |
| TcpSend.FirstQueuedAgain | ChinaOS/ethernet/core/tcp_out.c:1266-1298 | after tcp_rexmit that segment is in the unsent queue behind exactly the ones in front that are older, all others in their order |
| TcpSend.RexmitAll | ChinaOS/ethernet/core/tcp_out.c:1231-1257 | the unsent queue is hung behind the last unacknowledged segment |
| TcpSend.AllQueuedAgain | ChinaOS/ethernet/core/tcp_out.c:1231-1257 | after a retransmission timeout every unacknowledged segment is unsent again, in order and in front, and covers what it covered |
| TcpSend.Acknowledge | ChinaOS/ethernet/core/tcp_in.c:904-1056 | the two removal loops free exactly the acknowledged prefixes, and the counters follow |
| TcpSendRuns.WriteKeeps | ChinaOS/ethernet/core/tcp_out.c:351-702 | a write keeps all send-side invariants and extends the stream |
| TcpSendRuns.WriteKeepsExactly | ChinaOS/ethernet/core/tcp_out.c:397-486 | a successful write keeps them if and only if nothing is put behind a last unsent segment that does not end at snd_lbb |
| TcpSendRuns.InvTailFits | ChinaOS/ethernet/core/tcp_out.c:397-445 | the size and spare-room assumptions of tcp_write always hold when it may be called |
| TcpSendRuns.FinKeeps | ChinaOS/ethernet/core/tcp_out.c:715-805 | a FIN segment keeps the invariants |
| TcpSendRuns.FinHungKeepsExactly | ChinaOS/ethernet/core/tcp_out.c:123-139 | a FIN set on a queued segment keeps them if and only if that segment ends at snd_lbb |
| TcpSendRuns.StartHolds | ChinaOS/ethernet/core/tcp.c:703-732 | a connection starts with the invariants and its SYN queued |
| TcpSendRuns.TransmitKeeps | ChinaOS/ethernet/core/tcp_out.c:952-1020 | sending one segment moves it between the queues, keeps unacked sorted and loses nothing |
| TcpSendRuns.OutputKeeps | ChinaOS/ethernet/core/tcp_out.c:892-1031 | tcp_output keeps the invariants |
| TcpSendRuns.OutputExact | ChinaOS/ethernet/core/tcp_out.c:892-1031 | tcp_output sends from the head exactly what lies in the window and is not held back, and stops at a segment outside it or at a single short one while data is outstanding and nothing overrules Nagle's rule |
| TcpSendRuns.PlaceHolds | ChinaOS/ethernet/core/tcp_out.c:987-1011 | a segment that overlaps no other is put where unacked stays in order |
| TcpSendRuns.RexmitKeeps | ChinaOS/ethernet/core/tcp_out.c:1266-1298 | tcp_rexmit keeps the invariants |
| TcpSendRuns.RexmitTail | ChinaOS/ethernet/core/tcp_out.c:1266-1298 | it loses the property tcp_write needs if and only if it puts a segment that others follow on an empty unsent queue |
| TcpSendRuns.RexmitAllKeeps | ChinaOS/ethernet/core/tcp_out.c:1231-1257 | tcp_rexmit_rto keeps the invariants and that property |
| TcpSendRuns.AckKeepsExactly | ChinaOS/ethernet/core/tcp_in.c:935-1056 | an acknowledgement keeps them if and only if it is not half the sequence space behind a first unsent segment never sent in full |
| TcpSendRuns.AckFrees | ChinaOS/ethernet/core/tcp_in.c:935-1056 | an acknowledgement of new data moves lastack to it, returns the buffer space, and removes exactly the segments at the head of the queues that it covers |
| TcpSendRuns.OldAckFreesNothing | ChinaOS/ethernet/core/tcp_in.c:904-1056 | any other one leaves lastack, snd_buf and the unacknowledged queue alone |
| TcpSendRuns.AckReports | ChinaOS/ethernet/core/tcp_in.c:966-1050 | the byte count for the sent callback is what is newly acknowledged, the FIN not counted |
| TcpSendRuns.ConnectKeeps | ChinaOS/ethernet/core/tcp_in.c:625-663 | the handshake step keeps the invariants |
| TcpSendRuns.ConnectOpens | ChinaOS/ethernet/core/tcp_in.c:625-663 | after it the connection is open, its SYN acknowledged and in no queue, and everything else as it was |
| TcpSendRuns.ResizeKeepsExactly | ChinaOS/ethernet/core/tcp_in.c:1522-1527 | a new segment size keeps the invariants if and only if every queued segment, and the spare room behind the last unsent one, fits it |
| TcpSendRuns.LargerFits | ChinaOS/ethernet/core/tcp_in.c:1522-1527 | a larger segment size always fits, as on the SYN-ACK of an active open |
| TcpSendRuns.StepKeeps | ChinaOS/ethernet/core/tcp_out.c:351-1298 | every call keeps the invariants |
| TcpSendRuns.StepKeepsTail | ChinaOS/ethernet/core/tcp_out.c:1266-1298 | every call but that fast retransmission keeps the last unsent segment at snd_lbb |
| TcpSendRuns.RunConserves | ChinaOS/ethernet/core/tcp_out.c:351-1298 | in every run, with changes of the segment size, each unacknowledged sequence number is in exactly one queued segment, every segment carries the written bytes of its sequence number, unacked is sorted, snd_queuelen is the pbuf count and at most TCP_SND_QUEUELEN, and snd_buf + (snd_lbb - lastack) == TCP_SND_BUF |
| TcpSendRuns.MisplacedExample | ChinaOS/ethernet/core/tcp_out.c:397-486 | a run from tcp_connect on after which tcp_write puts a new byte behind an old segment |
| TcpSendRuns.MisjudgedExample | ChinaOS/ethernet/core/tcp_in.c:1026-1050 | a run from tcp_connect on after which an old acknowledgement number frees a segment that was never sent |
| TcpSendRuns.ResizeExample | ChinaOS/ethernet/core/tcp_out.c:423-462 | a run from tcp_connect on after which a smaller segment size makes tcp_write lengthen a segment that is already too long |
| SelectWakeup.InvStep | ChinaOS/ethernet/api/sockets.c:1075-1346 | every protected section of lwip_select and event_callback keeps the list, signal, counter and walk invariants and loses no wake-up |
| SelectWakeup.ExecutionKeepsInv | ChinaOS/ethernet/api/sockets.c:1075-1346 | they hold in every interleaving |
| SelectWakeup.NoLostWakeUp | ChinaOS/ethernet/api/sockets.c:1123-1346 | a sleeping caller that is not signalled has no pending event among those it watches, unless a walk for that socket has it ahead or must restart; at most one signal each; select_waiting positive |
| SelectWakeup.LastLook | ChinaOS/ethernet/api/sockets.c:1013-1066 | in every run what a caller's sets say of a socket, while it scans, sleeps or has returned, is what that socket was when its scan came to it, left-over data included |
| SelectWakeup.SleepsOverNothing | ChinaOS/ethernet/api/sockets.c:1123-1175 | a caller sleeps only over sockets at which its scan found neither left-over data it reads nor an event it watches; what is there now has come since |
| SelectWakeup.AnswersCount | ChinaOS/ethernet/api/sockets.c:1075-1240 | in every run the answer of lwip_select is the number of sockets in its sets, and zero after a timeout |
| SelectWakeup.ScanDecides | ChinaOS/ethernet/api/sockets.c:1092-1175 | the first scan ends the call exactly if it found something or the caller only polls; the second sends it to sleep exactly if it found nothing |
| SelectWakeup.SignalHasCause | ChinaOS/ethernet/api/sockets.c:1308-1346 | a caller is signalled only for an event it asked for that is there |
| SelectWakeup.EventsCounted | ChinaOS/ethernet/api/sockets.c:1275-1298 | rcvevent is the number of receive events up less those down, errevent whether there was an error |
| SelectWakeup.EventStands | ChinaOS/ethernet/api/sockets.c:1275-1298 | an event on sending, and left-over data, stands until it is taken back |
| SelectWakeup.CountsStep | ChinaOS/ethernet/api/sockets.c:1123-1198 | select_waiting stays the number of registered watchers |
| SelectWakeup.NoneLostStep | ChinaOS/ethernet/api/sockets.c:1273-1346 | no step loses a wake-up |
| Heap.RoundedCovers | ChinaOS/ethernet/core/mem.c:501-510 | the rounded request covers the request if and only if aligning it does not wrap the 16-bit size |
| Heap.OversizeRefused | ChinaOS/ethernet/core/mem.c:362-383 | a request longer than the block is refused, as documented, if and only if it is at most 65532 |
| Heap.Search | ChinaOS/ethernet/core/mem.c:529-551 | the search from lfree with its early bound finds the block a scan from offset 0 finds, or knows there is none |
| Heap.FirstFitConcat | ChinaOS/ethernet/core/mem.c:529-551 | first fit from behind a part without a fit is first fit from the start |
| Heap.TakenShape | ChinaOS/ethernet/core/mem.c:552-591 | splitting keeps the tiling, the sizes and the coalescing |
| Heap.TakenLive | ChinaOS/ethernet/core/mem.c:552-591 | an allocation adds one live block, disjoint from all others |
| Heap.Carve | ChinaOS/ethernet/core/mem.c:552-591 | the header writes of an allocation describe the split block list |
| Heap.NextFree | ChinaOS/ethernet/core/mem.c:593-601 | lfree moves to the lowest free block or the end |
| Heap.MemMalloc | ChinaOS/ethernet/core/mem.c:491-618 | NULL if and only if the request is empty, rounds beyond the heap, or no free block at all holds it; otherwise the first fitting block is taken |
| Heap.PlugHoles | ChinaOS/ethernet/core/mem.c:233-264 | merging forward and backward keeps the list, lfree and every live block |
| Heap.MergedHolds | ChinaOS/ethernet/core/mem.c:233-264 | merging two free neighbours changes no live block and not the lowest free offset |
| Heap.ReleasedCoalesced | ChinaOS/ethernet/core/mem.c:233-264 | after a release no two neighbours are free |
| Heap.FreedLive | ChinaOS/ethernet/core/mem.c:308-353 | freeing removes exactly that live block |
| Heap.MemFree | ChinaOS/ethernet/core/mem.c:308-353 | mem_free, illegal pointers included |
| Heap.TrimmedHolds | ChinaOS/ethernet/core/mem.c:411-466 | shrinking keeps tiling, sizes and coalescing |
| Heap.TrimmedLive | ChinaOS/ethernet/core/mem.c:411-466 | shrinking changes the room of one live block only |
| Heap.TrimmedLowest | ChinaOS/ethernet/core/mem.c:425-458 | lfree stays the lowest free block |
| Heap.MemTrim | ChinaOS/ethernet/core/mem.c:366-479 | mem_trim with all its ways out |
| Heap.NothingLive | ChinaOS/ethernet/core/mem.c:271-299 | a sound heap without live blocks is the single free block |
| Heap.AllFreed | ChinaOS/ethernet/core/mem.c:271-299 | freeing everything restores what mem_init made |
| Heap.MemHeap.constructor | ChinaOS/ethernet/core/mem.c:271-299 | mem_init over arbitrary memory |
| Heap.MemHeap.Malloc | ChinaOS/ethernet/core/mem.c:491-618 | aligned, inside the heap, large enough, disjoint from every other allocation |
| Heap.MemHeap.Free | ChinaOS/ethernet/core/mem.c:308-353 | the set of allocations loses exactly the freed one |
| Heap.MemHeap.Trim | ChinaOS/ethernet/core/mem.c:366-479 | one allocation is shortened in place or nothing happens |
| Pbuf.LiveIsReached | ChinaOS/ethernet/core/pbuf.c:580-593 | with exact counts every live pbuf is on the chain of a held one: nothing leaks |
| Pbuf.FreeIn | ChinaOS/ethernet/core/pbuf.c:595-671 | pbuf_free keeps counts exact while it walks |
| Pbuf.DropFrees | ChinaOS/ethernet/core/pbuf.c:620-655 | deallocating a pbuf turns its next link into the reference dropped next |
| Pbuf.FreeExact | ChinaOS/ethernet/core/pbuf.c:595-671 | pbuf_free deallocates exactly what no held reference leads to any more |
| Pbuf.AddRef | ChinaOS/ethernet/core/pbuf.c:700-710 | one more reference and nothing else |
| Pbuf.JoinedValid | ChinaOS/ethernet/core/pbuf.c:722-745 | pbuf_cat: counts and totals exact, the bytes are concatenated, the reference to the tail is taken over |
| Pbuf.Cat | ChinaOS/ethernet/core/pbuf.c:722-745 | the loop raises exactly the totals of the head chain and links the tail |
| Pbuf.Chain | ChinaOS/ethernet/core/pbuf.c:763-769 | pbuf_chain leaves the caller its reference |
| Pbuf.CutValid | ChinaOS/ethernet/core/pbuf.c:440-463 | cutting a chain leaves it sound with the rest hanging on one reference |
| Pbuf.CutBytes | ChinaOS/ethernet/core/pbuf.c:425-463 | the cut chain stands for the prefix of the bytes |
| Pbuf.Dechain | ChinaOS/ethernet/core/pbuf.c:780-808 | the first pbuf keeps its own bytes; the remainder is returned if and only if the number of deallocated pbufs is zero in eight bits |
| Pbuf.DechainAnswer | ChinaOS/ethernet/core/pbuf.c:780-808 | the answer tells whether the remainder survived, if and only if the number of deallocated pbufs is no positive multiple of 256 |
| Pbuf.DanglingExample | ChinaOS/ethernet/core/pbuf.c:780-808 | for each such multiple a chain of which a pointer to freed memory is returned |
| Pbuf.StepTo | ChinaOS/ethernet/core/pbuf.c:425-440 | the stepping loop with its 16-bit total updates |
| Pbuf.Realloc | ChinaOS/ethernet/core/pbuf.c:407-465 | shortening gives the prefix of the bytes; longer requests change nothing; other chains keep everything but counts |
| Pbuf.LinksIs | ChinaOS/ethernet/core/pbuf.c:237-280 | the pool pbufs needed behind the first one are the remaining length divided by the buffer size, rounded up |
| Pbuf.AllocPool | ChinaOS/ethernet/core/pbuf.c:213-280 | a fresh chain of the requested length out of the pool if and only if that has enough pbufs, otherwise the store exactly as before |
| Pbuf.Abandoned | ChinaOS/ethernet/core/pbuf.c:247-254 | giving up a half-built chain restores the store |
| Pbuf.AllocOne | ChinaOS/ethernet/core/pbuf.c:284-331 | a single fresh pbuf with one reference, or the store as it was |
| Pbuf.PbufHeap.Allocate | ChinaOS/ethernet/core/pbuf.c:284-331 | the same on the store |
| Pbuf.PbufHeap.AllocateChain | ChinaOS/ethernet/core/pbuf.c:213-280 | a pool chain on the store |
| Pbuf.PbufHeap.Free | ChinaOS/ethernet/core/pbuf.c:595-671 | what survives is exactly what is still reachable |
| Pbuf.PbufHeap.Concatenate | ChinaOS/ethernet/core/pbuf.c:722-745 | concatenation on the store |
| Pbuf.PbufHeap.Link | ChinaOS/ethernet/core/pbuf.c:763-769 | pbuf_chain on the store |
| Pbuf.PbufHeap.Detach | ChinaOS/ethernet/core/pbuf.c:780-808 | pbuf_dechain on the store: the bytes left and the exact answer |
| Pbuf.PbufHeap.Shrink | ChinaOS/ethernet/core/pbuf.c:407-465 | pbuf_realloc on the store |
| PbufCopy.CopyPartial | ChinaOS/ethernet/core/pbuf.c:895-930 | the bytes copied are the slice of the flat bytes, for every cut into links |
| PbufCopy.Take | ChinaOS/ethernet/core/pbuf.c:943-975 | the data replaces the first bytes, refused when the chain is shorter |
| PbufCopy.TakenIsCopied | ChinaOS/ethernet/core/pbuf.c:895-975 | what pbuf_take put in, pbuf_copy_partial gets out |
| PbufCopy.Copy | ChinaOS/ethernet/core/pbuf.c:829-880 | every target and source: refused with ERR_ARG if and only if one is missing or the target is too small; otherwise exactly a prefix of the source's flat bytes has replaced that of the target, the whole of it on success, and the outcome is that of the rounds |
| PbufCopy.CopiesExactly | ChinaOS/ethernet/core/pbuf.c:829-880 | into a target that does not end in an empty link, copying succeeds if and only if the source does not either, or is one link and an empty one that the first round copies with a target link left |
| PbufCopy.NullTargetExample | ChinaOS/ethernet/core/pbuf.c:829-880 | a byte and an empty link, into a buffer of one byte: it fits, and the code runs behind the target's end |
| Checksum.Version1 | ChinaOS/ethernet/core/ipv4/inet_chksum.c:81-114 | the big-endian sum, swapped, is the one's complement word sum |
| Checksum.Version2 | ChinaOS/ethernet/core/ipv4/inet_chksum.c:135-173 | the aligned sum from any address is the same value, and 32 bits suffice for lengths up to 0x20000 |
| Checksum.Version3 | ChinaOS/ethernet/core/ipv4/inet_chksum.c:191-255 | so is the unrolled 32-bit sum with its added-back carries, for every alignment |
| Checksum.Shifted | ChinaOS/ethernet/core/ipv4/inet_chksum.c:135-173 | reading the words one byte later multiplies the sum by 256 modulo 65535 |
| Checksum.SwapSame | ChinaOS/ethernet/include/ipv4/lwip/inet_chksum.h:41-49 | swapping a word multiplies it by 256 modulo 65535 |
| Checksum.RunningStep | ChinaOS/ethernet/core/ipv4/inet_chksum.c:284-298 | one more link keeps the running sum right, whatever the parities |
| Checksum.SumChain | ChinaOS/ethernet/core/ipv4/inet_chksum.c:417-428 | the chain sum is the sum of the flat bytes for every cut |
| Checksum.ChecksumPbuf | ChinaOS/ethernet/core/ipv4/inet_chksum.c:409-430 | inet_chksum_pbuf is inet_chksum of the flat bytes |
| Checksum.ChecksumPseudo | ChinaOS/ethernet/core/ipv4/inet_chksum.c:272-317 | inet_chksum_pseudo is inet_chksum of pseudo header and flat bytes |
| Checksum.ChecksumPartial | ChinaOS/ethernet/core/ipv4/inet_chksum.c:332-383 | the partial version is that of the first chksum_len bytes, although it swaps by the whole length of the last link |
| Checksum.StampedSumsToZero | ChinaOS/ethernet/core/ipv4/inet_chksum.c:386-400 | a packet stamped in an aligned field sums to zero |
| Checksum.Updated | ChinaOS/ethernet/core/ipv4/ip.c:203-208 | the incremental update equals recomputation unless nothing but the subtracted value was there |
| Checksum.Forward | ChinaOS/ethernet/core/ipv4/ip.c:189-208 | the header of a forwarded packet carries its recomputed checksum if and only if the time to live was not zero |
| Checksum.EchoReply | ChinaOS/ethernet/core/ipv4/icmp.c:186-198 | the reply's checksum is the recomputed one if and only if some other byte of the message is not zero |
| Checksum.OutputHeader | ChinaOS/ethernet/core/ipv4/ip.c:604-690 | the checksum summed while writing the header is inet_chksum of the finished header |
| Checksum.OutputAccepted | ChinaOS/ethernet/core/ipv4/ip.c:604-690 | such a header passes the receiver's test |
| Netconn.DoWritemore | ChinaOS/ethernet/api/api_msg.c:1194-1304 | one round of a write: what is offered, how many bytes are taken, and exactly when it completes, would block, waits or fails |
| Netconn.DoWrite | ChinaOS/ethernet/api/api_msg.c:1313-1357 | a write call is refused or started |
| Netconn.DoConnect | ChinaOS/ethernet/api/api_msg.c:972-1021 | a connect call is refused exactly without control block, when busy or when tcp_connect refuses; otherwise it is pending, or pending with nobody waiting |
| Netconn.DoListen | ChinaOS/ethernet/api/api_msg.c:1052-1094 | a listen call with each of its failures, one of which loses the control block |
| Netconn.DoConnected | ChinaOS/ethernet/api/api_msg.c:925-962 | the attempt is over; only a blocking one wakes somebody |
| Netconn.DoClose | ChinaOS/ethernet/api/api_msg.c:1421-1451 | a close call: refused exactly on its guards, done, or pending |
| Netconn.DoDelconn | ChinaOS/ethernet/api/api_msg.c:820-877 | the same for deleting |
| Netconn.Retry | ChinaOS/ethernet/api/api_msg.c:277-337 | what the sent and poll callbacks do for the call in progress |
| Netconn.ErrTcp | ChinaOS/ethernet/api/api_msg.c:347-404 | a lost connection ends the call in progress and wakes nobody else |
| Netconn.StepKeeps | ChinaOS/ethernet/api/api_msg.c:277-1357 | current_msg is set exactly in WRITE, CLOSE and blocking CONNECT, after every handler and callback |
| Netconn.OfferIsLeast | ChinaOS/ethernet/api/api_msg.c:1216-1244 | what a round offers is the least of the bytes left, 0xffff and the send buffer |
| Netconn.StepReports | ChinaOS/ethernet/api/api_msg.c:277-1451 | every call and callback tells its caller exactly the error it should, once, or nothing, and leaves the state and control block that go with it |
| Netconn.ResultsTold | ChinaOS/ethernet/api/api_msg.c:277-1451 | in every run each result is what the event that gave it told |
| Netconn.CallsCompleteOnce | ChinaOS/ethernet/api/api_msg.c:277-1357 | in every run each call has exactly one result, no signal is given twice, and a write reports OK only after all its bytes were taken in order |
| Netconn.ResultsStand | ChinaOS/ethernet/api/api_msg.c:277-1357 | over any run results are only added, never changed |
| Netconn.OffsetAfterWrite | ChinaOS/ethernet/api/api_msg.c:1194-1304 | a round leaves write_offset behind in an idle connection, against later assertions, if and only if bytes had been taken before and the call does not block or tcp_write fails with more than lack of memory |
| Netconn.OffsetLeftExample | ChinaOS/ethernet/api/api_msg.c:1194-1304 | a run that ends so: a blocking write is made non-blocking while in progress |
| SocketStream.DoRecv | ChinaOS/ethernet/api/api_msg.c:1159-1182 | the credit is passed on in 16-bit pieces that add up to it |
| SocketStream.FetchPacket | ChinaOS/ethernet/api/sockets.c:592-630 | fetching takes the first message of the mailbox, reports the end of the stream or an error exactly when it should, and loses nothing |
| SocketStream.TakeSome | ChinaOS/ethernet/api/sockets.c:632-720 | as much as fits is copied out of the packet at hand, and the rest kept unless all is read |
| SocketStream.ReadStream | ChinaOS/ethernet/api/sockets.c:549-731 | bytes returned followed by what is unread are what was unread before; what is at hand, or in the first packet, is read up to the length; 0 and -1 are returned exactly for the end of the stream and for errors; the read stops for a reason that holds; the credit is the number of bytes returned, and that of bytes consumed if and only if nothing was peeked |
| SocketStream.Socket.RecvFrom | ChinaOS/ethernet/api/sockets.c:549-731 | the same in the fields of the socket |
| SocketStream.FlatStream | ChinaOS/ethernet/api/sockets.c:549-731 | over any interleaving of posts, reads and peeks the bytes read and the unread rest are the posted stream |
| SocketStream.CreditExact | ChinaOS/ethernet/api/sockets.c:549-731 | over any such interleaving the window is credited with what was consumed if and only if no peek returned a byte |
| Slip.EndsOnly | ChinaOS/ethernet/netif/slipif.c:91-129 | inside a frame the END byte does not occur |
| Slip.OnTheLine | ChinaOS/ethernet/netif/slipif.c:106-120 | the bytes a frame has on the line |
| Slip.Output | ChinaOS/ethernet/netif/slipif.c:91-129 | the frame does not depend on the cut into pbufs |
| Slip.RoundTrip | ChinaOS/ethernet/netif/slipif.c:106-250 | decoding the frames gives the packets back if and only if none is empty or longer than 1501 bytes |
| Slip.Resynchronises | ChinaOS/ethernet/netif/slipif.c:174-250 | from any decoder state every packet after the first is exact, and the first too outside an escape |
| Slip.FrameDecodes | ChinaOS/ethernet/netif/slipif.c:174-250 | what one frame does from any decoder state |
| Slip.PacketByPacket | ChinaOS/ethernet/netif/slipif.c:174-250 | calling slipif_input repeatedly decodes the line |
| Slip.Interface.Store | ChinaOS/ethernet/netif/slipif.c:209-246 | a byte stored in the pool pbufs appends to the kept bytes, up to the limit |
| Slip.Interface.Input | ChinaOS/ethernet/netif/slipif.c:165-250 | the decoder over pool pbufs does what the abstract decoder does, when allocation succeeds |
| Timers.Inserted | ChinaOS/ethernet/core/timers.c:287-308 | the insertion loop places the deadline and leaves every other where it was |
| Timers.Removed | ChinaOS/ethernet/core/timers.c:319-345 | the removal loop removes the first match and leaves every other deadline where it was |
| Timers.EqualsStayInOrder | ChinaOS/ethernet/core/timers.c:292-308 | equal deadlines stay in the order in which they were set |
| Timers.InsertAdds | ChinaOS/ethernet/core/timers.c:287-308 | setting adds one timeout and loses none |
| Timers.FirstGoes | ChinaOS/ethernet/core/timers.c:319-345 | a cancellation removes the first timeout for the handler and argument, if there is one, and no other |
| Timers.TimeoutList.SysTimeout | ChinaOS/ethernet/core/timers.c:264-310 | the same on the list, or no change without memory |
| Timers.TimeoutList.SysUntimeout | ChinaOS/ethernet/core/timers.c:319-345 | the same on the list |
| Timers.TimeoutList.Round | ChinaOS/ethernet/core/timers.c:418-472 | a timeout fires at its deadline; a message leaves the deadlines where they are if and only if it took no longer than asked |
| Timers.WaitingKeeps | ChinaOS/ethernet/core/timers.c:418-472 | a message leaves all deadlines where they are if and only if it took no longer than asked |
| Timers.NoneLost | ChinaOS/ethernet/core/timers.c:264-472 | in every run with a truthful mailbox what was asked for is, as a multiset of deadlines, what is pending, was cancelled or has fired: none is lost or repeated |
| Timers.FiresOnTime | ChinaOS/ethernet/core/timers.c:264-472 | each timeout that fires was set by an earlier call, with its handler and argument, and fires when exactly the time asked for has been waited since |
| Timers.FiresInOrder | ChinaOS/ethernet/core/timers.c:264-472 | timeouts fire in the order of their deadlines and nothing is overdue |
| NewPort.Check | ChinaOS/ethernet/core/tcp.c:625-632 | the walk over the lists tells whether the port is used |
| NewPort.TcpNewPort | ChinaOS/ethernet/core/tcp.c:609-634 | the restarting search ends at the first unused port of the range behind the saved one, whenever there is one |
| NewPort.Pigeonhole | ChinaOS/ethernet/core/tcp.c:609-634 | fewer than 0x4000 control blocks leave a port unused |
| NewPort.NewPortAmongFew | ChinaOS/ethernet/core/tcp.c:609-634 | so the search ends with an unused port |

## Left out

- ReceiveSegment: segments with a SYN, the urgent pointer and the congestion-control variables, and
  sequence distances of 2^30 and more, are not part of the model.
- RunDeliversPrefix: its steps exclude segments queued while the window wraps, which is the exact
  condition under which reassembly fails.
- ConnectionRun: its steps exclude the segments of which ProcessedKeeps says that they spoil the queue,
  and keep the right edge within 2^30 of the announced one, so that the signed comparison means what
  it says.
- Write: time-stamp options, checksum-on-copy and the single-pbuf configuration are off; the PSH flag
  and payload addresses are not modelled.
- RunConserves: its steps exclude changes of the segment size that what is queued does not fit, and
  the writes, closings and acknowledgements that the exact lemmas rule out; the round-trip timer,
  persist timer and congestion window only appear as the window handed to tcp_output.
- NoLostWakeUp: closing or reopening a socket while a select waits for it, wrap-around of the 16-bit
  event counter and of the list version, and events on a connection that has no socket yet are left out.
- alloc_socket and lwip_accept: the hand-over of early events to a new socket is not modelled.
- MemHeap: pools, the statistics and the configuration in which memory is freed from other contexts;
  real addresses are offsets.
- FreeIn: counts without the 16-bit limit of the ref field, and returns its count before it is cut to
  eight bits; pbuf_dechain cuts it.
- Cat: totals without the 16-bit limit.
- pbuf_header, custom pbufs, pbuf_memfind and the other search functions.
- Dechain: asks that no other pbuf points to the first one, whose total would be stale otherwise.
- Realloc: asks that the chain has no other way in, for the same reason; shrinking the memory of a
  RAM pbuf is the heap's business.
- NewMss: a route whose mtu is at most 40 bytes, for which the limit is zero or wraps.
- CopiesExactly: for a target that ends in an empty link, the outcome is given by the recursion over
  rounds that Copy is proved against, not by a closed condition. Chains of several packets, whose
  totals do not reach to the end, are left out.
- ChecksumPartial: the assertion against more than 0x7fff remaining bytes is left out.
- CallsCompleteOnce: one outstanding call per connection is assumed, as the source does; UDP and raw
  connections, the locking variant and draining of mailboxes are left out.
- RecvFrom: addresses, datagram sockets and errno are left out.
- sys_sem_new: lwip_select's failure without a semaphore is left out.
- Input: when no pbuf can be allocated the byte is dropped and the packet is damaged; nothing is said
  about that case.
- SysUntimeout: stored times are unbounded; each is at most a time once asked for, so 32 bits suffice.
- sys_check_timeouts: not exact by design, left out.
- Drivers, serial and mailbox primitives, DHCP, DNS, ARP, UDP, raw, IGMP and the file system.
