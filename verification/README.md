# Verified models of the AIC8800 driver and the speaker plugin

A Dafny 4.11 project that models the hardest logic of the AIC8800 Wi-Fi and Bluetooth driver and of the
`smt_hpf_limiter` audio plugin, and proves what that logic keeps, inverts or refines. Check it with
`dafny verify dfyconfig.toml`.

| file | models |
|---|---|
| `bytes.dfy` | bytes, machine words, joining of sequences |
| `crc8.dfy` | the header CRC-8, as division of polynomials over GF(2) |
| `frame_queue.dfy` | the eight-class frame queue, with the evicting enqueue of the firmware loader |
| `tx_framing.dfy`, `tx_engine.dfy` | the aggregate format and its inverse; the SDIO transmit engine, with producers running in between |
| `tcp_ack.dfy`, `tcp_ack_runs.dfy`, `tcp_ack_pace.dfy` | the TCP ACK filter over its slot table; ownership, bookkeeping and cumulative progress over all runs; when an ACK is let go |
| `hci_reassembly.dfy`, `bt_ring.dfy` | HCI fragment reassembly and the ring behind the Bluetooth character device |
| `rx_deaggregation.dfy` | taking received blocks apart |
| `rx_reorder.dfy`, `rx_reorder_runs.dfy` | the receive reorder window in 12-bit arithmetic, and over unbounded numbers over all runs |
| `md5.dfy` | streaming MD5 around an arbitrary block function |
| `nat25.dfy`, `udp_checksum.dfy` | the NAT 2.5 hash table as a finite map, and the incremental UDP checksum |
| `cmd_manager.dfy`, `cmd_manager_runs.dfy` | the firmware loader's command manager and every interleaving of its events |
| `cookbook.dfy`, `cookbook_response.dfy` | the biquad designs: their stability, and what they do to frequencies |
| `hpf_limiter.dfy`, `hpf_sessions.dfy`, `hpf_response.dfy` | the plugin with its cached coefficients, whole sessions of it, and the recurrences and responses its controls stand for |

Code that updates objects in place is modelled by classes whose methods are proved against functions on values;
what the code is for is proved about those functions, over whole runs where it is a property of runs. Conditions
that the code meets only sometimes are stated exactly.

## What the proofs show the code does not do

* **A held ACK can be stranded.** If the timer of a slot fires while an earlier message of the flow is still marked
  as in flight, or after the slot was released, the held message stays with no timer running. `StallIff`: exactly
  then. `StalledUntil`: until a later ACK of the flow, a late callback, or the end. `StallReachable` and
  `IdleStallReachable` are runs that lead there.
* **HCI reassembly depends on fragmentation after an oversized header.** The rest of the fragment is dropped, so where
  the fragment ends matters. `FragmentationIndependent`: all cuts agree if and only if no byte follows such a header;
  `OversizedAclDiffers` is a stream of five bytes with two cuts that differ.
* **SCO packets with 253 to 255 bytes of data are taken for oversized**: the room of 255 bytes includes the header
  (`PacketIsFrame`).
* **Frames behind the reorder window are handed up at once**, out of order, and a second time if they are repeated
  (`BehindOutOfOrder`). `OrderLostIff`: over every run, the order is kept exactly if no frame had been overtaken when it
  came.
* **The aggregate buffer is large enough only for tx_aggr_counter up to 66** (`BufferSuffices`); the parameter is not
  checked.
* **A record that reaches beyond its block holds the receive loop up.** Over an skb, `skb_pull` refuses to advance, and
  the loop hands on the same item for ever: `StuckIff` for one turn, `EndsIff` for a block, `TruncatedSticks` for a block
  cut off inside its last record. Over a preallocated buffer the loop goes on past the end and stops.
* **RX lengths wrap at 16 bits.** For data records with a length field of 65473 or more the padded length does not fit
  (`SteppedOver`, `WideDataFails`). Blocks the hardware can transfer are too short for that (`TransferInverts`).
* **MD5Update's loop guard wraps at 32 bits** for chunks whose tail starts within 64 bytes of 2^32 (`GuardWraps`;
  `LongestChunkWraps` is one). Chunks below 2^32 - 64 bytes are safe whatever is buffered, and no longer ones are
  (`SafeLength`).
* **The UDP update adds the whole new flags word** instead of its difference from the old one: the checksum stays
  right if and only if the word was zero (`RightIffFlagsZero`; `FlaggedRequestBreaks` is a request the driver rewrites
  and breaks). A datagram without a checksum is given one (`NoneBecomesSome`).
* **An evicting packet changes its class**: it is queued in the lower class of the packet it replaces.
* **A confirmed command can still report a timeout**, when the wait ends before the confirmation and takes the lock
  after it; the manager has then crashed (`RaceOnce`). Commands that are refused or time out are never freed.
* **Band frequencies are clamped from above only.** A frequency that is not positive makes its section unstable, or
  divides by zero (`StableIffPositiveBands`, and `StableIffRisingBands` for any value; `ZeroWarmthUnstable` is an
  input). The plugin's comment that every stage is stable holds for positive ones.

## Model

| member | source | states |
|---|---|---|
| `Crc8.FeedBit` | `package/aic8800/src/aic8800_fdrv/aicwf_sdio.c:3376-3389` | one bit of the loop, in place on machine bytes, is one step of dividing by x^8+x^2+x+1 |
| `Crc8.FeedByte` | `package/aic8800/src/aic8800_fdrv/aicwf_sdio.c:3374-3391` | the mask loop feeds the eight bits of a byte, highest first |
| `Crc8.Crc8Ponl107` | `package/aic8800/src/aic8800_fdrv/aicwf_sdio.c:3370-3393` | the byte loop computes the CRC register of the whole message, also of the empty one |
| `Crc8.CrcByte` | `package/aic8800/src/aic8800_fdrv/aicwf_sdio.c:3370-3393` | the CRC byte of a message of bytes as integers, as the framing code uses it |
| `Crc8.QuotientDivides` | `package/aic8800/src/aic8800_fdrv/aicwf_sdio.c:3370-3393` | message(x)*x^8 = quotient(x)*g(x) + register, coefficient by coefficient, for every bit string |
| `Crc8.CrcIsTheRemainder` | `package/aic8800/src/aic8800_fdrv/aicwf_sdio.c:3370-3393` | an octet is the CRC if and only if it is the remainder of message(x)*x^8 by x^8+x^2+x+1 over GF(2), some quotient being given |
| `Crc8.CrcLinear` | `package/aic8800/src/aic8800_fdrv/aicwf_sdio.c:3370-3393` | the CRC of the XOR of two messages of equal length is the XOR of their CRCs |
| `Crc8.AppendedCrcIsZero` | `package/aic8800/src/aic8800_fdrv/aicwf_sdio.c:3370-3393` | a message followed by its CRC byte has CRC zero |
| `Crc8.OnlyCrcChecks` | `package/aic8800/src/aic8800_fdrv/aicwf_sdio.c:3370-3393` | a message followed by one byte has CRC zero if and only if that byte is its CRC |
| `Crc8.BurstDetected` | `package/aic8800/src/aic8800_fdrv/aicwf_sdio.c:3370-3393` | messages of equal length that differ, and only within eight consecutive bits, have different CRCs |
| `FrameQueues.FrameQueue.Penq` | `package/aic8800/src/aic8800_fdrv/aicwf_txrxif.c:675-689` | appends to a class unless that class alone is full, and keeps qcnt the sum of the class lengths and nothing above hi_prio; while qcnt is below qmax no class is full |
| `FrameQueues.FrameQueue.Enqueue` | `package/aic8800/src/aic8800_fdrv/aicwf_txrxif.c:785-823` | refuses exactly when full; otherwise one class grows by the packet at its end |
| `FrameQueues.FrameQueue.IsEmpty` | `package/aic8800/src/aic8800_fdrv/aicwf_txrxif.c:737-748` | the sum of the classes up to hi_prio is zero exactly when qcnt is, and then every class is empty |
| `FrameQueues.FrameQueue.PeekTail` | `package/aic8800/src/aic8800_fdrv/aicwf_txrxif.c:720-735` | the newest packet of the lowest non-empty class and that class |
| `FrameQueues.FrameQueue.Dequeue` | `package/aic8800/src/aic8800_fdrv/aicwf_txrxif.c:750-771` | takes the oldest packet of the highest non-empty class and nothing else |
| `FrameQueues.FrameQueue.DequeueTail` | `package/aic8800/src/aic8800_bsp/aicsdio_txrxif.c:420-430` | takes the newest packet of a class |
| `FrameQueues.FrameQueue.EnqueueEvicting` | `package/aic8800/src/aic8800_bsp/aicsdio_txrxif.c:432-464` | a full queue admits a packet only by evicting the newest packet of the lowest non-empty, strictly lower class; qcnt stays at qmax; the newcomer takes over that class |
| `FrameQueues.FrameQueue.Flush` | `package/aic8800/src/aic8800_fdrv/aicwf_txrxif.c:691-705` | empties every class |
| `FrameQueues.OnlyClass` | `package/aic8800/src/aic8800_fdrv/aicwf_txrxif.c:737-783` | a class that holds qcnt packets is the only non-empty one |
| `TxFraming.FrameAligned` | `package/aic8800/src/aic8800_fdrv/aicwf_sdio.c:2213-2261` | every record, and so every frame, is a whole number of words long: the next record starts 4-byte aligned |
| `TxFraming.RecordAssembled` | `package/aic8800/src/aic8800_fdrv/aicwf_sdio.c:2213-2261` | header, descriptor and payload, padding and the patched length on the older chips make exactly one record |
| `TxFraming.WalkFrame` | `package/aic8800/src/aic8800_fdrv/aicwf_sdio.c:2213-2261` | walking the headers recovers each descriptor and payload in order and stops at the zero word or the end |
| `TxFraming.WalkBadFrame` | `package/aic8800/src/aic8800_fdrv/aicwf_sdio.c:2221-2251` | one record too long for the 12-bit field and the walk no longer yields the packets |
| `TxFraming.TransmissionInvertible` | `package/aic8800/src/aic8800_fdrv/aicwf_sdio.c:2213-2316` | the transmission, tail word and stale bytes up to the 512-byte block end included, walks back to exactly the packets if and only if every announced length fits twelve bits |
| `TxFraming.RecordLayout` | `package/aic8800/src/aic8800_fdrv/aicwf_sdio.c:2213-2251` | a record byte by byte: length, type 1, zero or the CRC of the three bytes before it, with which the header has CRC zero, then the descriptor, the payload and zeros up to a word |
| `TxFraming.NoExtraBlock` | `package/aic8800/src/aic8800_fdrv/aicwf_sdio.c:2267-2318` | a transmission is as many whole 512-byte blocks as the records fill: the end mark never costs one |
| `TxEngine.TxPriv.constructor` | `package/aic8800/src/aic8800_fdrv/aicwf_sdio.c:2322-2352` | the engine starts empty, with no credit |
| `TxEngine.TxPriv.Producers` | `package/aic8800/src/aic8800_fdrv/aicwf_sdio.c:1993-2010` | producer steps in any order keep the count of packets and their per-class order; committed packets stay committed |
| `TxEngine.TxPriv.Submit` | `package/aic8800/src/aic8800_fdrv/aicwf_sdio.c:1993-2010` | a producer's enqueue: accepted exactly when the queue is not full |
| `TxEngine.TxPriv.Take` | `package/aic8800/src/aic8800_fdrv/aicwf_sdio.c:2102-2110` | the consumer takes one packet, and no packet of a higher class was queued; it stays counted in tx_pktcnt |
| `TxEngine.TxPriv.Aggr` | `package/aic8800/src/aic8800_fdrv/aicwf_sdio.c:2149-2265` | the aggregate buffer holds exactly the records of the pending packets, one more after the call |
| `TxEngine.TxPriv.AggrSend` | `package/aic8800/src/aic8800_fdrv/aicwf_sdio.c:2267-2320` | flushes: what the receiver reads off the bus grows by exactly the pending packets, in order; aggr_count returns to zero |
| `TxEngine.TxPriv.FlowCtrl` | `package/aic8800/src/aic8800_fdrv/aicwf_sdio.c:351-390` | the credit read: the first value above the threshold within 51 reads, capped by tx_aggr_counter; -1 if a read fails before, the last value negated if none shows credit |
| `TxEngine.TxPriv.MaskedBits` | `package/aic8800/src/aic8800_fdrv/aicwf_sdio.c:351-362` | on the older chips the top bit of the register is no credit, on the others all eight bits are |
| `TxEngine.TxPriv.ReadCredit` | `package/aic8800/src/aic8800_fdrv/aicwf_sdio.c:1929-1944` | a new credit is only read with nothing aggregated; packets handed over restart at zero |
| `TxEngine.TxPriv.TakeAndAggregate` | `package/aic8800/src/aic8800_fdrv/aicwf_sdio.c:2102-2134` | a packet moves from the queue into the aggregate while producers go on |
| `TxEngine.TxPriv.FlushIfDue` | `package/aic8800/src/aic8800_fdrv/aicwf_sdio.c:2136-2146` | flushes exactly when the last counted packet is aggregated, on txnow, or when the credit is used up, and spends one credit per packet; packets handed over since the last credit read never exceed credit - 2 |
| `TxEngine.TxPriv.Send` | `package/aic8800/src/aic8800_fdrv/aicwf_sdio.c:2065-2147` | one pass of the sender takes one packet and keeps every invariant of the engine, whatever the producers do in between; with txnow nothing stays aggregated |
| `TxEngine.TxPriv.DeadExits` | `package/aic8800/src/aic8800_fdrv/aicwf_sdio.c:2080-2101` | the sender's early exits for an inconsistent or a full aggregate cannot be taken |
| `TxEngine.TxPriv.LooksEmpty` | `package/aic8800/src/aic8800_fdrv/aicwf_sdio.c:1929-1932` | the unlocked emptiness test may miss the one packet being enqueued, but when it says empty nothing is aggregated |
| `TxEngine.TxPriv.Pass` | `package/aic8800/src/aic8800_fdrv/aicwf_sdio.c:1929-1953` | one turn of the transmit loop keeps the invariants and takes a packet or reads the credit anew; leaving the loop leaves aggr_count at zero |
| `TxEngine.TxPriv.Serve` | `package/aic8800/src/aic8800_fdrv/aicwf_sdio.c:1941-1952` | with something queued the turn leaves the loop exactly if a command waits, and spends credit only above the threshold |
| `TxEngine.TxPriv.TxProcess` | `package/aic8800/src/aic8800_fdrv/aicwf_sdio.c:1881-1969` | over any script of producers, credits and pending commands the invariants hold, and every exit leaves nothing stranded: the firmware has received exactly the packets taken, in order |
| `TxEngine.BufferSuffices` | `package/aic8800/src/aic8800_fdrv/aicwf_sdio.c:2213-2265` | with credit capped at tx_aggr_counter the aggregate buffer holds every aggregate of slot-sized packets if and only if the cap is at most 66 |
| `TxEngine.SubmitConserves` | `package/aic8800/src/aic8800_fdrv/aicwf_sdio.c:1993-2010` | enqueuing keeps accepted packets queued or taken, class by class and in order |
| `TxEngine.TakeConserves` | `package/aic8800/src/aic8800_fdrv/aicwf_sdio.c:2102-2110` | dequeuing keeps accepted packets queued or taken, class by class and in order |
| `TxEngine.OneMore` | `package/aic8800/src/aic8800_fdrv/aicwf_sdio.c:2267-2320` | a flushed frame adds the pending packets to what the receiver has |
| `TcpAck.Manager.constructor` | `package/aic8800/src/aic8800_fdrv/aicwf_tcp_ack.c:63-94` | the table starts with 32 idle slots |
| `TcpAck.Manager.Match` | `package/aic8800/src/aic8800_fdrv/aicwf_tcp_ack.c:256-281` | the search loop finds the first busy slot of the flow, or -1 |
| `TcpAck.Manager.Update` | `package/aic8800/src/aic8800_fdrv/aicwf_tcp_ack.c:284-306` | the ageing loop releases exactly the expired busy slots, adjusts max_num by their number and leaves free_index at the lowest of them |
| `TcpAck.Manager.AllocIndex` | `package/aic8800/src/aic8800_fdrv/aicwf_tcp_ack.c:309-344` | takes free_index or the first idle slot, or -1 |
| `TcpAck.Manager.HandleNew` | `package/aic8800/src/aic8800_fdrv/aicwf_tcp_ack.c:435-511` | hands back, holds, replaces or drops an acknowledgement, as the specification says for the one slot; the other slots stay |
| `TcpAck.Manager.Timeout` | `package/aic8800/src/aic8800_fdrv/aicwf_tcp_ack.c:28-61` | the timer sends the held message, unless the in-flight marker stands or the slot is idle |
| `TcpAck.Manager.FilterSend` | `package/aic8800/src/aic8800_fdrv/aicwf_tcp_ack.c:539-607` | the whole send filter: verdict, message to drop, and new table |
| `TcpAck.Manager.FilterRx` | `package/aic8800/src/aic8800_fdrv/aicwf_tcp_ack.c:513-536` | a pushed segment marks the slot of its flow |
| `TcpAck.Manager.MoveMsg` | `package/aic8800/src/aic8800_fdrv/aicwf_tcp_ack.c:609-630` | clears the in-flight marker of the message in whatever slot carries it |
| `TcpAck.Manager.Deinit` | `package/aic8800/src/aic8800_fdrv/aicwf_tcp_ack.c:96-117` | drops every held message once and stops the timers |
| `TcpAckRuns.InitOk` | `package/aic8800/src/aic8800_fdrv/aicwf_tcp_ack.c:63-94` | the initial table is in order |
| `TcpAckRuns.AllocOk` | `package/aic8800/src/aic8800_fdrv/aicwf_tcp_ack.c:309-344` | in a table in order allocation yields an idle slot and fails only when all 32 are busy |
| `TcpAckRuns.StepOk` | `package/aic8800/src/aic8800_fdrv/aicwf_tcp_ack.c:256-630` | every event keeps the table in order: max_num is the number of busy slots, a nonnegative free_index names an idle slot, busy slots have pairwise distinct flows |
| `TcpAckRuns.RunAccounted` | `package/aic8800/src/aic8800_fdrv/aicwf_tcp_ack.c:28-117` | over any run from a table in order every message is accounted for exactly once |
| `TcpAckRuns.OneFate` | `package/aic8800/src/aic8800_fdrv/aicwf_tcp_ack.c:28-117` | a message given once is handed back, sent by a timer, freed, or held in exactly one slot; none is freed twice or both freed and sent |
| `TcpAckRuns.UnwrapTrue` | `package/aic8800/src/aic8800_fdrv/aicwf_tcp_ack.h:18` | unwrapping 32-bit numbers is exact for numbers within half the sequence space |
| `TcpAckRuns.StepCovered` | `package/aic8800/src/aic8800_fdrv/aicwf_tcp_ack.c:435-511` | through one event the slot's number is the largest presented, and the very message presented with it is held by the slot, or one presented with it went out |
| `TcpAckRuns.ProgressKept` | `package/aic8800/src/aic8800_fdrv/aicwf_tcp_ack.c:28-61` | over any run of one tenancy the number never goes back, the held message is the one presented with exactly that number, and every acknowledgement, the dropped ones included, is at or below one whose message was sent or is still held |
| `TcpAckRuns.OpeningCovered` | `package/aic8800/src/aic8800_fdrv/aicwf_tcp_ack.c:583-603` | a tenancy opened without a held message starts in that state: its first frame goes out |
| `TcpAckRuns.StallIff` | `package/aic8800/src/aic8800_fdrv/aicwf_tcp_ack.c:28-61` | a held message is left without a running timer exactly when its timer fires while an in-flight marker stands or after the slot was released |
| `TcpAckRuns.StalledUntil` | `package/aic8800/src/aic8800_fdrv/aicwf_tcp_ack.c:28-117` | such a message stays, with no timer, until a later acknowledgement of its flow, a callback that finds slot and marker clear, or deinit: nothing else moves it |
| `TcpAckRuns.StallReachable` | `package/aic8800/src/aic8800_fdrv/aicwf_tcp_ack.c:28-61` | five events from the initial table strand a message on a busy slot, with no marker left |
| `TcpAckRuns.IdleStallReachable` | `package/aic8800/src/aic8800_fdrv/aicwf_tcp_ack.c:28-61` | six events strand one on a released slot |
| `TcpAckPace.PushedGoesOut` | `package/aic8800/src/aic8800_fdrv/aicwf_tcp_ack.c:459-475` | after data was pushed up to a number, through any run in which the flow keeps its slot, the first new acknowledgement beyond that number is handed back at once |
| `TcpAckPace.TenthGoesOut` | `package/aic8800/src/aic8800_fdrv/aicwf_tcp_ack.c:463-483` | of successive new acknowledgements with nothing pushed and nothing in flight, exactly the tenth since the last one sent is handed back |
| `TcpAckPace.SendingStartsOver` | `package/aic8800/src/aic8800_fdrv/aicwf_tcp_ack.c:469-475` | one handed back, or sent by the timer, starts that count over once it is no longer in flight |
| `TcpAckPace.SecondGoesOut` | `package/aic8800/src/aic8800_fdrv/aicwf_tcp_ack.c:583-602` | the first acknowledgement of a flow goes out, and so does the next one |
| `TcpAckPace.StaleFreed` | `package/aic8800/src/aic8800_fdrv/aicwf_tcp_ack.c:485-490` | an acknowledgement behind the slot's number is freed |
| `TcpAckPace.OthersReturned` | `package/aic8800/src/aic8800_fdrv/aicwf_tcp_ack.c:553-602` | what is no pure acknowledgement is handed back at once, and so is everything once the filter is off |
| `TcpAckPace.AwaitsOn` | `package/aic8800/src/aic8800_fdrv/aicwf_tcp_ack.c:513-536` | the mark of pushed data stays through every other event while the flow keeps its slot |
| `TcpAckPace.ReleasedIff` | `package/aic8800/src/aic8800_fdrv/aicwf_tcp_ack.c:284-305` | a frame of another kind releases a slot exactly if the timeout has passed since the last scan and since the flow's last acknowledgement |
| `HciReassembly.Hci.Absorb` | `package/aic8800/src/aic8800_fdrv/aic_btsdio.c:722-785` | appends the bytes of the current phase; a complete header fixes the body length or is oversized |
| `HciReassembly.Hci.Fill` | `package/aic8800/src/aic8800_fdrv/aic_btsdio.c:722-785` | consumes exactly the first frame of pending and new bytes, or all of them, and `missing` (the source's expect) is again the exact positive number of bytes the phase lacks |
| `HciReassembly.Hci.Reassembly` | `package/aic8800/src/aic8800_fdrv/aic_btsdio.c:672-787` | one call delivers at most one frame; its return value is the number of bytes left over, or the error |
| `HciReassembly.Hci.RecvFragment` | `package/aic8800/src/aic8800_fdrv/aic_btsdio.c:789-806` | the loop over a fragment delivers the parse of pending bytes and fragment, keeps exactly the leftover, and terminates |
| `HciReassembly.ParseSplit` | `package/aic8800/src/aic8800_fdrv/aic_btsdio.c:672-806` | a stream may be parsed up to any point and resumed from the leftover, unless a header was oversized |
| `HciReassembly.FragmentsAgree` | `package/aic8800/src/aic8800_fdrv/aic_btsdio.c:789-806` | any list of fragments gives the frames and the leftover of the concatenation while nothing follows an oversized header |
| `HciReassembly.AgreeIffNothingDropped` | `package/aic8800/src/aic8800_fdrv/aic_btsdio.c:789-806` | all ways of cutting a stream agree if and only if parsing it whole drops nothing |
| `HciReassembly.FragmentationIndependent` | `package/aic8800/src/aic8800_fdrv/aic_btsdio.c:672-806` | all ways of cutting a stream agree if and only if it does not consist of whole frames, a header announcing more than the buffer holds, and at least one byte behind that header |
| `HciReassembly.OversizedAclDiffers` | `package/aic8800/src/aic8800_fdrv/aic_btsdio.c:742-753` | five bytes whose two cuts differ: an ACL header announcing 1025 bytes, and one byte |
| `HciReassembly.PacketIsFrame` | `package/aic8800/src/aic8800_fdrv/aic_btsdio.c:689-770` | an encoded ACL, SCO or event packet is one frame exactly if it has at most 1024, 252 or 255 bytes of payload; otherwise it is taken for oversized |
| `HciReassembly.PacketsParse` | `package/aic8800/src/aic8800_fdrv/aic_btsdio.c:672-787` | a stream of such packets of one type is taken apart into exactly these packets |
| `HciReassembly.PacketsDelivered` | `package/aic8800/src/aic8800_fdrv/aic_btsdio.c:789-806` | and they are delivered however the stream is cut into fragments |
| `BtRing.Ring.Push` | `package/aic8800/src/aic8800_fdrv/aic_btsdio.c:343-364` | the indices wrap and at most 499 of 500 places are used |
| `BtRing.Ring.Enqueue` | `package/aic8800/src/aic8800_fdrv/aic_btsdio.c:343-364` | accepts a frame unless 499 are queued; bytes returned, then bytes queued, are the accepted frames |
| `BtRing.Ring.DequeueTry` | `package/aic8800/src/aic8800_fdrv/aic_btsdio.c:366-398` | takes the oldest frame, or its front, leaving the tail queued |
| `BtRing.Ring.Read` | `package/aic8800/src/aic8800_fdrv/aic_btsdio.c:899-941` | a read of any size returns the next bytes of the stream, as many as asked or as the oldest frame still has, and none are lost |
| `BtRing.Ring.QueueCnt` | `package/aic8800/src/aic8800_fdrv/aic_btsdio.c:423-440` | the count is exact across wrap-around |
| `BtRing.Ring.IsQueueEmpty` | `package/aic8800/src/aic8800_fdrv/aic_btsdio.c:400-403` | front equals rear exactly when nothing is queued |
| `BtRing.Ring.Clear` | `package/aic8800/src/aic8800_fdrv/aic_btsdio.c:405-421` | drops everything |
| `BtRing.CutFront` | `package/aic8800/src/aic8800_fdrv/aic_btsdio.c:331-398` | what a read takes and what it leaves make up the byte stream |
| `RxDeaggregation.TakeOne` | `package/aic8800/src/aic8800_fdrv/aicwf_txrxif.c:385-437` | one turn of the loop on any block: the item at the front, read beyond the block where its length says so, and what is left of the block |
| `RxDeaggregation.ProcessBlock` | `package/aic8800/src/aic8800_fdrv/aicwf_txrxif.c:385-437` | on any block, the loop hands on the items of the walk and ends, or stays on the same item for ever |
| `RxDeaggregation.StuckIff` | `package/aic8800/src/aic8800_fdrv/aicwf_txrxif.c:312-437` | a turn leaves the block as it is if and only if the padded record reaches beyond an skb, or is a data record whose padded length is 65536 |
| `RxDeaggregation.EndsIff` | `package/aic8800/src/aic8800_fdrv/aicwf_txrxif.c:385-437` | over an skb the loop ends if and only if the block is a row of whole padded records and an end mark |
| `RxDeaggregation.SteppedOver` | `package/aic8800/src/aic8800_fdrv/aicwf_txrxif.c:385-434` | a record is taken whole and stepped over exactly if its padded length fits the 16-bit variable |
| `RxDeaggregation.DeaggregationInverts` | `package/aic8800/src/aic8800_fdrv/aicwf_txrxif.c:246-281` | on any encoding of records followed by a zero length or the end, exactly that list comes out, in order, over either kind of buffer and whatever lies behind it |
| `RxDeaggregation.TruncatedSticks` | `package/aic8800/src/aic8800_fdrv/aicwf_txrxif.c:385-437` | a block cut off inside its last record: the records before it, and then that item for ever over an skb, once over a preallocated buffer |
| `RxDeaggregation.TransferInverts` | `package/aic8800/src/aic8800_fdrv/aicwf_sdio.c:2826-2893` | for blocks the hardware can transfer, no further condition is needed |
| `RxDeaggregation.WideDataFails` | `package/aic8800/src/aic8800_fdrv/aicwf_txrxif.c:386-406` | a data record that does not fit holds the loop up for ever or loses part of its header |
| `RxDeaggregation.ItemsAre` | `package/aic8800/src/aic8800_fdrv/aicwf_txrxif.c:408-434` | what comes out of a list of records: the data frames whole, and of the configuration messages exactly those of types 0x11, 0x12 and 0x13 |
| `RxDeaggregation.ItemsAppend` | `package/aic8800/src/aic8800_fdrv/aicwf_txrxif.c:385-437` | each record adds at most one item, behind those before it |
| `RxDeaggregation.DataRecord` | `package/aic8800/src/aic8800_fdrv/aicwf_txrxif.c:386-407` | a data record built byte by byte, length low-order byte first and type 0, is handed on whole; it is too wide from length 65473 on |
| `RxDeaggregation.ConfigRecord` | `package/aic8800/src/aic8800_fdrv/aicwf_txrxif.c:408-434` | a configuration record of type 0x10 to 0x1F built byte by byte is handed on without its header for types 0x11 to 0x13, and adds nothing for the others |
| `RxReorder.ReordCtrl.NeedCheck` | `package/aic8800/src/aic8800_fdrv/rwnx_rx.c:1825-1848` | a frame behind the window is late; one at its start moves it by one, one beyond its end so far that it becomes the last |
| `RxReorder.ReordCtrl.Enqueue` | `package/aic8800/src/aic8800_fdrv/rwnx_rx.c:1850-1873` | the list loop inserts in serial order and refuses a number that waits already |
| `RxReorder.ReordCtrl.Process` | `package/aic8800/src/aic8800_fdrv/rwnx_rx.c:1579-1613` | the walk climbs over the numbers it meets and says whether one lies beyond; forced, it starts at the first that waits |
| `RxReorder.ReordCtrl.Ind` | `package/aic8800/src/aic8800_fdrv/rwnx_rx.c:1615-1641` | hands up the front of the list that is not beyond the window's start |
| `RxReorder.ReordCtrl.ProcessUnit` | `package/aic8800/src/aic8800_fdrv/rwnx_rx.c:1751-1823` | one unicast data frame: handed up, freed, or queued, with the timer armed or stopped |
| `RxReorder.ReordCtrl.TimeoutHandler` | `package/aic8800/src/aic8800_fdrv/rwnx_rx.c:1648-1669` | the timer's callback schedules the work |
| `RxReorder.ReordCtrl.TimeoutWorker` | `package/aic8800/src/aic8800_fdrv/rwnx_rx.c:1671-1687` | the work forces the window and rearms the timer if something still waits |
| `RxReorder.ReordCtrl.FlushTid` | `package/aic8800/src/aic8800_fdrv/rwnx_rx.c:1402-1424` | a flush hands up what waits, in order, and disables the window |
| `RxReorderRuns.SerialOrder` | `package/aic8800/src/aic8800_fdrv/aicwf_txrxif.h:161` | for numbers less than half the space apart, SN_LESS is less |
| `RxReorderRuns.ArriveRefines` | `package/aic8800/src/aic8800_fdrv/rwnx_rx.c:1751-1823` | an arrival in 12-bit arithmetic does what the window over unbounded numbers does, with all waiting frames in the 63 numbers behind its start |
| `RxReorderRuns.WorkRefines` | `package/aic8800/src/aic8800_fdrv/rwnx_rx.c:1671-1687` | so does a timeout |
| `RxReorderRuns.RunOk` | `package/aic8800/src/aic8800_fdrv/rwnx_rx.c:1579-1873` | over every run of arrivals, timeouts and flushes: between flushes frames leave the window in strictly ascending order of their unbounded numbers; every frame is handed up once, freed once, or waits; none waits without its timer or work pending |
| `RxReorderRuns.AtMost63` | `package/aic8800/src/aic8800_fdrv/rwnx_rx.c:1825-1873` | at most 63 frames wait |
| `RxReorderRuns.NothingSkipped` | `package/aic8800/src/aic8800_fdrv/rwnx_rx.c:1579-1641` | as long as no frame overshoots the window and no timeout forces it, the frames that left carry consecutive numbers from the first on |
| `RxReorderRuns.OrderLostIff` | `package/aic8800/src/aic8800_fdrv/rwnx_rx.c:1770-1795` | over every run: what leaves between flushes, the frames behind the window included, is in ascending order if and only if no frame was behind, not RTP, and its number or a later one handed up already, when it came |
| `RxReorderRuns.ArrivalLosesIff` | `package/aic8800/src/aic8800_fdrv/rwnx_rx.c:1770-1795` | one arrival breaks the order exactly then |
| `RxReorderRuns.WorkAscends` | `package/aic8800/src/aic8800_fdrv/rwnx_rx.c:1671-1687` | a timeout never breaks it |
| `RxReorderRuns.BehindOutOfOrder` | `package/aic8800/src/aic8800_fdrv/rwnx_rx.c:1770-1795` | number 4 after number 5 is handed up at once, and so is number 5 a second time |
| `RxReorderRuns.NextDelivered` | `package/aic8800/src/aic8800_fdrv/rwnx_rx.c:1751-1815` | the frame the window starts at is handed up by its own arrival |
| `RxReorderRuns.FirstDelivered` | `package/aic8800/src/aic8800_fdrv/rwnx_rx.c:1825-1848` | so is the first frame of all |
| `RxReorderRuns.WorkDelivers` | `package/aic8800/src/aic8800_fdrv/rwnx_rx.c:1671-1687` | a timeout hands up at least the first frame that waits |
| `RxReorderRuns.TimerIff` | `package/aic8800/src/aic8800_fdrv/rwnx_rx.c:1801-1809` | after an accepted arrival the timer runs exactly if something waits |
| `Md5.Md5Ctx.constructor` | `package/aic8800/src/aic8800_bsp/md5.c:9-17` | the initial state: nothing hashed |
| `Md5.Md5Ctx.Update` | `package/aic8800/src/aic8800_bsp/md5.c:18-41` | one chunk: counter, state and buffer become those of the longer message |
| `Md5.Md5Ctx.AddLength` | `package/aic8800/src/aic8800_bsp/md5.c:23-26` | a counter that stood at eight times the bytes so far stands at eight times the bytes with the chunk, modulo 2^64, carry included |
| `Md5.Md5Ctx.Consume` | `package/aic8800/src/aic8800_bsp/md5.c:28-40` | the block loop folds every complete block and keeps exactly the unprocessed tail |
| `Md5.Md5Ctx.Final` | `package/aic8800/src/aic8800_bsp/md5.c:42-52` | padding and length turn the state into the digest of the message |
| `Md5.Encode` | `package/aic8800/src/aic8800_bsp/md5.c:53-65` | words as bytes, low-order byte first |
| `Md5.HashChunks` | `package/aic8800/src/aic8800_bsp/md5.c:9-52` | any split of a message into chunks for which the 32-bit guard holds gives the fold of the block function over its padded form (section 3 of RFC 1321) |
| `Md5.BlocksAppend` | `package/aic8800/src/aic8800_bsp/md5.c:18-41` | folding a whole number of blocks and then the rest is folding all |
| `Md5.CountsOn` | `package/aic8800/src/aic8800_bsp/md5.c:23-26` | the counter's carry rule is addition modulo 2^64 |
| `Md5.CountsIndex` | `package/aic8800/src/aic8800_bsp/md5.c:21-22` | the counter gives the number of buffered bytes |
| `Md5.SafeLength` | `package/aic8800/src/aic8800_bsp/md5.c:24-38` | a chunk is safe behind whatever is buffered if and only if it is shorter than 2^32 - 64 bytes |
| `Md5.ShortChunksSafe` | `package/aic8800/src/aic8800_bsp/md5.c:24-38` | so any message in any chunks below that length can be hashed |
| `Md5.LongestChunkWraps` | `package/aic8800/src/aic8800_bsp/md5.c:32` | the guard wraps for a chunk of 2^32 - 1 bytes |
| `Md5.GuardWraps` | `package/aic8800/src/aic8800_bsp/md5.c:32` | the 32-bit loop guard wraps exactly for chunks whose tail starts within 64 bytes of 2^32 |
| `Md5.DigestIs` | `package/aic8800/src/aic8800_bsp/md5.c:42-52` | the sixteen bytes of the digest are the four words of the fold over the padded message, low-order byte first |
| `Md5.InitBytes` | `package/aic8800/src/aic8800_bsp/md5.c:9-17` | the initial words as bytes are 01 23 45 67 89 ab cd ef fe dc ba 98 76 54 32 10 (section 3.3 of RFC 1321) |
| `Md5.PaddedLayout` | `package/aic8800/src/aic8800_bsp/md5.c:42-52` | message, 0x80, fewer than 64 zeros, and the bit length modulo 2^64 in eight bytes make whole blocks (sections 3.1 and 3.2) |
| `Nat25.DriverHash` | `package/aic8800/src/aic8800_fdrv/aic_br_ext.c:311-360` | the driver's hash names one of the 16 buckets for every address, whatever its protocol byte |
| `Nat25.Vif.constructor` | `package/aic8800/src/aic8800_fdrv/rwnx_defs.h:367-373` | the interface starts with empty buckets and no shortcut: an empty map; the driver has 16 buckets |
| `Nat25.Vif.Link` | `package/aic8800/src/aic8800_fdrv/aic_br_ext.c:363-378` | the entry becomes the first of its bucket and all back pointers are exact again |
| `Nat25.Vif.Unlink` | `package/aic8800/src/aic8800_fdrv/aic_br_ext.c:380-394` | the entry is bypassed in its chain, wherever it stood, through its back pointer alone |
| `Nat25.Vif.BypassedIsRemoved` | `package/aic8800/src/aic8800_fdrv/aic_br_ext.c:380-394` | a chain with an entry bypassed is the well-linked chain without it |
| `Nat25.Vif.Search` | `package/aic8800/src/aic8800_fdrv/aic_br_ext.c:402-449` | the walk finds the entry of the address in the bucket, or none is there |
| `Nat25.Vif.Find` | `package/aic8800/src/aic8800_fdrv/aic_br_ext.c:1543-1566` | an entry is found exactly if the address is stored: keys are unique and each entry is in its hash's bucket |
| `Nat25.Vif.LookupAndReplace` | `package/aic8800/src/aic8800_fdrv/aic_br_ext.c:396-461` | a stored address is found; only an unaged entry gives its MAC and counts a use; nothing else changes |
| `Nat25.Vif.Insert` | `package/aic8800/src/aic8800_fdrv/aic_br_ext.c:469-504` | insertion is a map update: new MAC and age, the use count of a known address kept, one for a new one |
| `Nat25.Vif.Remove` | `package/aic8800/src/aic8800_fdrv/aic_br_ext.c:687-695` | removal takes the address out of the map, and the bridge's shortcut is forgotten with its entry |
| `Nat25.Vif.ExpireOne` | `package/aic8800/src/aic8800_fdrv/aic_br_ext.c:632-699` | one entry ages as the map does |
| `Nat25.Vif.ExpireBucket` | `package/aic8800/src/aic8800_fdrv/aic_br_ext.c:627-700` | the walk along a bucket, freeing as it goes, deals with exactly its addresses |
| `Nat25.Vif.Expire` | `package/aic8800/src/aic8800_fdrv/aic_br_ext.c:621-705` | ageing lowers the use count of exactly the aged entries and removes exactly those that reach zero; scdb_entry never points at a removed entry |
| `Nat25.Vif.Cleanup` | `package/aic8800/src/aic8800_fdrv/aic_br_ext.c:593-616` | cleanup leaves an empty map and no shortcut |
| `Nat25.Vif.Repoint` | `package/aic8800/src/aic8800_fdrv/rwnx_tx.c:1089-1109` | the shortcut points to the entry of the packet's address or to nothing |
| `Nat25.Vif.Shortcut` | `package/aic8800/src/aic8800_fdrv/rwnx_tx.c:1089-1109` | the shortcut's entry is refreshed, and only it |
| `Nat25.Remembered` | `package/aic8800/src/aic8800_fdrv/aic_br_ext.c:396-504` | over any run of insertions, lookups, shortcut refreshes, scans and cleanups a stored address shows the MAC of its last insertion and the time of its last insertion or refresh |
| `Nat25.Retained` | `package/aic8800/src/aic8800_fdrv/aic_br_ext.c:621-705` | an address stays, until a cleanup, as long as no scan since its last insertion finds it aged |
| `Nat25.LeavesByUse` | `package/aic8800/src/aic8800_fdrv/aic_br_ext.c:621-705` | an aged address leaves with the scan that uses up its use count, neither before nor after |
| `Nat25.RunInUse` | `package/aic8800/src/aic8800_fdrv/aic_br_ext.c:469-504` | no stored entry ever has a use count below one |
| `Nat25.UsesBalance` | `package/aic8800/src/aic8800_fdrv/aic_br_ext.c:396-705` | over any run the use count of a stored address is one, plus one for every lookup before it had aged, less one for every scan after, since it entered the table |
| `Nat25.AgedIff` | `package/aic8800/src/aic8800_fdrv/aic_br_ext.c:396-461` | an address is aged from NAT25_AGEING_TIME after its last insertion or refresh on |
| `Nat25.IpSpreads` | `package/aic8800/src/aic8800_fdrv/aic_br_ext.c:311-318` | the bucket of an IPv4 address hangs on the low nibble of each of its four bytes and on nothing else |
| `UdpChecksum.DhcpFlagBcast` | `package/aic8800/src/aic8800_fdrv/aic_br_ext.c:1498-1537` | the packet stays, or its flags word gets the broadcast bit and its checksum the incremental value; the carry loop terminates |
| `UdpChecksum.FoldResidue` | `package/aic8800/src/aic8800_fdrv/aic_br_ext.c:1529-1531` | folding keeps the residue modulo 65535 and yields zero only for zero |
| `UdpChecksum.RightIffFlagsZero` | `package/aic8800/src/aic8800_fdrv/aic_br_ext.c:1526-1532` | a good checksum stays good if and only if the flags word was zero before |
| `UdpChecksum.FlaggedRequestBreaks` | `package/aic8800/src/aic8800_fdrv/aic_br_ext.c:1498-1537` | a DHCP request of 282 bytes with a good checksum and a flags word of 1, which the driver accepts and whose checksum is wrong afterwards |
| `UdpChecksum.RequestRightIff` | `package/aic8800/src/aic8800_fdrv/aic_br_ext.c:1498-1537` | the same for the UDP datagram inside the packet, at its offset behind the IP header |
| `UdpChecksum.AgreesWithRecomputed` | `package/aic8800/src/aic8800_fdrv/aic_br_ext.c:1526-1532` | then it equals the recomputed checksum up to the two zeros of one's complement |
| `UdpChecksum.VanishesIff` | `package/aic8800/src/aic8800_fdrv/aic_br_ext.c:1526-1532` | the checksum turns into zero, meaning none, exactly when it equalled the new flags word |
| `UdpChecksum.NoneBecomesSome` | `package/aic8800/src/aic8800_fdrv/aic_br_ext.c:1526-1532` | a datagram sent without a checksum gets one, and is then accepted only if the rest happens to sum to zero |
| `UdpChecksum.RequestBytes` | `package/aic8800/src/aic8800_fdrv/aic_br_ext.c:1498-1524` | what is taken for a request, in numbers on the wire: EtherType 0x0800, protocol 17, ports 68 and 67, magic cookie 0x63825363 behind 236 bytes of BOOTP |
| `UdpChecksum.FlagSet` | `package/aic8800/src/aic8800_fdrv/aic_br_ext.c:1522-1532` | the update sets the highest bit of the first flags byte, and apart from the checksum no other |
| `CmdManager.CmdMgr.Complete` | `package/aic8800/src/aic8800_bsp/aic_bsp_driver.c:43-61` | takes a command off the list, marks it done, and wakes its waiter unless it still waits for something |
| `CmdManager.CmdMgr.Queue` | `package/aic8800/src/aic8800_bsp/aic_bsp_driver.c:63-104` | refuses when crashed or full; otherwise appends with the next token, deferring the push when the last command waits |
| `CmdManager.CmdMgr.Msgind` | `package/aic8800/src/aic8800_bsp/aic_bsp_driver.c:155-193` | the search completes the first command of the list that waits for this confirmation and whose callback accepts it |
| `CmdManager.CmdMgr.Confirm` | `package/aic8800/src/aic8800_bsp/aic_bsp_driver.c:168-184` | answers one command with at most 1024 bytes and completes it |
| `CmdManager.CmdMgr.Timeout` | `package/aic8800/src/aic8800_bsp/aic_bsp_driver.c:121-131` | a wait that runs out crashes the manager and completes the command unless it is done already |
| `CmdManager.FirstTaker` | `package/aic8800/src/aic8800_bsp/aic_bsp_driver.c:163-168` | the index found takes the confirmation and none before it does |
| `CmdManagerRuns.StepKeeps` | `package/aic8800/src/aic8800_bsp/aic_bsp_driver.c:43-193` | every request, confirmation, timeout and wake-up keeps: queue_sz is the list length and at most 8, the list is in order of arrival, each command is in exactly one place, and the manager has crashed exactly if a wait has run out |
| `CmdManagerRuns.RunOn` | `package/aic8800/src/aic8800_bsp/aic_bsp_driver.c:43-193` | every reachable world is sound: what one step keeps holds over every run |
| `CmdManagerRuns.NeverDeferred` | `package/aic8800/src/aic8800_bsp/aic_bsp_driver.c:321-359` | with the flags the sender sets, no listed command waits for a push or an acknowledgement: the deferred-push path is unreachable |
| `CmdManagerRuns.LeavesOnce` | `package/aic8800/src/aic8800_bsp/aic_bsp_driver.c:43-138` | a command is refused, or listed, or has left the list exactly once |
| `CmdManagerRuns.ConfirmsOldest` | `package/aic8800/src/aic8800_bsp/aic_bsp_driver.c:155-193` | a confirmation completes the oldest waiting command of its request, hands it the parameters or their first 1024 bytes, and touches no other |
| `CmdManagerRuns.ConfirmsNobody` | `package/aic8800/src/aic8800_bsp/aic_bsp_driver.c:155-193` | without a taker nothing changes |
| `CmdManagerRuns.AcceptedIff` | `package/aic8800/src/aic8800_bsp/aic_bsp_driver.c:63-104` | a request is accepted if and only if the manager has not crashed and fewer than eight commands are listed; it then is the last of the list with the next token, otherwise its caller is told which of the two it was |
| `CmdManagerRuns.WokenIff` | `package/aic8800/src/aic8800_bsp/aic_bsp_driver.c:117-134` | a caller returns success and frees its command exactly once its command was completed |
| `CmdManagerRuns.CrashedAbsorbs` | `package/aic8800/src/aic8800_bsp/aic_bsp_driver.c:70-75` | after a crash nothing is accepted over any run: the list only shrinks and every request is refused |
| `CmdManagerRuns.RaceOnce` | `package/aic8800/src/aic8800_bsp/aic_bsp_driver.c:117-131` | timeout and confirmation of one command, in either order: it leaves the list once, its caller is told of a timeout, and the manager has crashed |
| `CmdManagerRuns.TokensCount` | `package/aic8800/src/aic8800_bsp/aic_bsp_driver.c:96` | the next token is the number of commands accepted so far, modulo 2^32 |
| `HpfLimiter.Plugin.Recompute` | `package/smt-audio-dsp/src/hpf_limiter.c:125-151` | clamps the controls, designs the five sections and caches the clamped values; the histories stay |
| `HpfLimiter.Plugin.Activate` | `package/smt-audio-dsp/src/hpf_limiter.c:178-185` | clears the histories and the primed flag |
| `HpfLimiter.Plugin.Sample` | `package/smt-audio-dsp/src/hpf_limiter.c:206-213` | one sample through the sections, each updated in place, is the chain of the specification |
| `HpfLimiter.Plugin.Block` | `package/smt-audio-dsp/src/hpf_limiter.c:203-218` | the sample loop, also with the output in the input buffer |
| `HpfLimiter.Plugin.Run` | `package/smt-audio-dsp/src/hpf_limiter.c:187-219` | one call: recomputes if a control moved, then filters the block; nothing behind it is written |
| `HpfSessions.CachingTransparent` | `package/smt-audio-dsp/src/hpf_limiter.c:125-163` | over any calls and controls, in range or not, samples and state equal those of a plugin that recomputes before every block |
| `HpfSessions.SplittingChangesNothing` | `package/smt-audio-dsp/src/hpf_limiter.c:187-219` | a block played in two parts at the same controls gives the same samples and state |
| `HpfSessions.NeverAboveCeiling` | `package/smt-audio-dsp/src/hpf_limiter.c:187-219` | over any calls and controls, no sample of a session exceeds the ceiling its own block was played with, nor full scale |
| `HpfSessions.DesignStable` | `package/smt-audio-dsp/src/hpf_limiter.c:125-145` | with positive band frequencies all five sections lie strictly inside the second-order stability triangle, for every cutoff, Q and gain |
| `HpfSessions.StableIffRisingBands` | `package/smt-audio-dsp/src/hpf_limiter.c:125-145` | for any control values whatever, short of a division by zero, that holds if and only if the sine of each clamped band's angle is positive |
| `HpfSessions.StableIffPositiveBands` | `package/smt-audio-dsp/src/hpf_limiter.c:132-137` | above minus half the sample rate that is: if and only if the three band frequencies are positive; the clamps do not see to it |
| `HpfSessions.ZeroWarmthUnstable` | `package/smt-audio-dsp/src/hpf_limiter.c:132-137` | a warmth frequency of 0 Hz passes the clamps, divides by no zero, and makes its section unstable |
| `HpfSessions.SessionStable` | `package/smt-audio-dsp/src/hpf_limiter.c:125-163` | a session with positive band frequencies only ever filters with stable sections |
| `HpfSessions.FlatConfigIsHighpassAndLimiter` | `package/smt-audio-dsp/src/hpf_limiter.c:14-17` | with all bands at 0 dB from activation on, every sample of the session is that of high-pass and limiter alone |
| `Cookbook.HighpassIffRising` | `package/smt-audio-dsp/src/hpf_limiter.c:71-80` | the high-pass is stable exactly where the sine of its angle is positive, at any frequency where its denominator is not zero |
| `Cookbook.PeakingIffRising` | `package/smt-audio-dsp/src/hpf_limiter.c:82-91` | the peaking section, for every gain, is stable exactly where the sine of its angle is positive, at any frequency where its denominator is not zero |
| `Cookbook.LowShelfIffRising` | `package/smt-audio-dsp/src/hpf_limiter.c:93-103` | the low shelf, for every gain, is stable exactly where the sine of its angle is positive, at any frequency where its denominator is not zero |
| `Cookbook.HighShelfIffRising` | `package/smt-audio-dsp/src/hpf_limiter.c:105-114` | the high shelf, for every gain, is stable exactly where the sine of its angle is positive, at any frequency where its denominator is not zero |
| `Cookbook.RisingIffPositive` | `package/smt-audio-dsp/src/hpf_limiter.c:126-137` | between minus one half and 0.45 of the sample rate the sine is positive exactly for positive frequencies |
| `Cookbook.ZeroHertzUnstable` | `package/smt-audio-dsp/src/hpf_limiter.c:93-103` | at 0 Hz the low shelf is unstable though its denominator is not zero |
| `Cookbook.PeakingUnity` | `package/smt-audio-dsp/src/hpf_limiter.c:82-91` | at 0 dB the peaking section is an exact unity: numerator and denominator coincide |
| `Cookbook.LowShelfUnity` | `package/smt-audio-dsp/src/hpf_limiter.c:93-103` | at 0 dB the low shelf is an exact unity |
| `Cookbook.HighShelfUnity` | `package/smt-audio-dsp/src/hpf_limiter.c:105-114` | at 0 dB the high shelf is an exact unity |
| `CookbookResponse.HighpassResponse` | `package/smt-audio-dsp/src/hpf_limiter.c:71-80` | the high-pass blocks a constant with a double zero, leaves the highest frequency alone, and multiplies its cutoff frequency by j times q |
| `CookbookResponse.PeakingResponse` | `package/smt-audio-dsp/src/hpf_limiter.c:82-91` | the peak leaves both ends of the band alone, has dB decibels at its centre, and half of them at the edges its Q gives it |
| `CookbookResponse.LowShelfResponse` | `package/smt-audio-dsp/src/hpf_limiter.c:93-103` | the low shelf has dB decibels for a constant and none at the highest frequency; at its corner half of them, with the phase its Q gives it |
| `CookbookResponse.HighShelfResponse` | `package/smt-audio-dsp/src/hpf_limiter.c:105-114` | the high shelf has none for a constant and dB decibels at the highest frequency, and the same corner |
| `HpfResponse.PlayIsSeries` | `package/smt-audio-dsp/src/hpf_limiter.c:203-218` | taking every sample through all sections, as the loop does, is taking the whole signal through one section after the other, and then through the limiter |
| `HpfResponse.RunIsVoicing` | `package/smt-audio-dsp/src/hpf_limiter.c:187-219` | in every call the input passes five recurrences with the coefficients of the controls, each going on from where it was left, and then the limiter |
| `HpfResponse.ActivatedSilent` | `package/smt-audio-dsp/src/hpf_limiter.c:178-185` | after activation they go on from silence |
| `HpfResponse.FrequencyPasses` | `package/smt-audio-dsp/src/hpf_limiter.c:67-68` | a section multiplies a frequency it has settled on by its complex gain |
| `HpfResponse.ConstantPasses` | `package/smt-audio-dsp/src/hpf_limiter.c:67-68` | and a constant by its gain at 0 Hz |
| `HpfResponse.AlternatingPasses` | `package/smt-audio-dsp/src/hpf_limiter.c:67-68` | and an alternating signal by its gain at half the sample rate |
| `HpfResponse.DesignResponse` | `package/smt-audio-dsp/src/hpf_limiter.c:139-143` | the chain: two high-passes at the cutoff with the Butterworth Qs, the warmth shelf, the presence peak and the air shelf, each at its own frequency, width and gain |
| `HpfResponse.ButterworthCutoff` | `package/smt-audio-dsp/src/hpf_limiter.c:126` | the two Qs halve the power at the cutoff, to seven digits |
| `HpfResponse.ClampNearest` | `package/smt-audio-dsp/src/hpf_limiter.c:126-137` | the cutoff is kept between 20 Hz and 0.45 of the sample rate, the bands below that, the presence Q above 0.1; the gains and values in range are not touched |
| `HpfResponse.Defaults` | `package/smt-audio-dsp/src/hpf_limiter.c:126-131` | with no port connected: 180 Hz, flat bands, no makeup, full scale |
| `HpfResponse.LoudIs` | `package/smt-audio-dsp/src/hpf_limiter.c:191-199` | makeup is in decibels, the ceiling is kept between 0.05 and full scale |
| `HpfResponse.LimiterTransparent` | `package/smt-audio-dsp/src/hpf_limiter.c:215-217` | the limiter never adds anything, treats both signs alike, and takes away at most a third of the cube of the level in terms of the ceiling |

## Left out

- Kernel and hardware: register access, probe and removal, thread scheduling, wake locks, suspend. Register reads, clock values and header-inspection verdicts are inputs; a locked section is one step.
- The ADMA scatter path, the USB back-end, netif flow control, temperature control, and bus-down or teardown races (queue flush during transmit, draining the command manager).
- TxEngine.TxPriv.TxProcess: covers every finite script of producer steps, credits and pending commands while the bus stays up; a packet's record is taken to fit a 1536-byte slot and the transmit descriptor to be 28 bytes; it asks for tx_aggr_counter up to 66, because beyond that the buffer can be overrun (`BufferSuffices`).
- TxEngine.TxPriv.LooksEmpty: the producer's locked section is modelled in two steps, enqueue and count, because the emptiness test does not take the lock.
- TcpAck.Manager.FilterSend: each filter call is one step, although its parts take a lock each; the window size only prints a message; TCP option scanning and the superseded `tcp_ack_handle` are not modelled; `jiffies` does not wrap.
- TcpAckRuns.ProgressKept: speaks of a tenancy that opened without a held message; a slot reopened over one is covered by `OneFate`, `StallIff` and `StalledUntil` only.
- HciReassembly.Hci.Fill: the room of a buffer is the requested size; what the allocator adds is not modelled, nor are failing allocations and what becomes of delivered frames.
- BtRing.Ring.Read: a read blocked on an empty ring, hot-unplugging and failing copies to user space are not modelled.
- RxDeaggregation.ProcessBlock: what is read behind a block is a parameter, and a turn that leaves the block as it is ends the method with the items that repeat; failing allocations are not modelled; configuration messages of other types are skipped, as in the code.
- RxReorder.ReordCtrl.ProcessUnit: whether a frame is RTP is an input; the frame pool, multicast and EAPOL frames, which bypass the window, and the lookup of the station are not modelled; each locked section is one step.
- Md5.HashChunks: the block function is a parameter, so the 64 rounds of `MD5Transform` and `MD5Decode` are not modelled; it asks that each chunk's loop guard holds, which `GuardWraps` shows to be exactly when the loop stays inside its input.
- Nat25.Vif.Expire: `use_count` and `jiffies` do not wrap, and a failing allocation at insertion is not modelled; parsing packets into network addresses, PPPoE tags, IPX, AppleTalk and IPv6 rewriting are not part of the model.
- Nat25.Vif.Shortcut: the conditions on the Ethernet header that lead to the shortcut are not modelled.
- UdpChecksum.DhcpFlagBcast: packets are sequences of 16-bit words as a little-endian machine loads them, an odd last byte padded with zero, and hold the headers they announce; the driver checks no lengths.
- CmdManager.CmdMgr.Queue: commands are kept by identity in a map instead of as linked objects; a wait ended by a fatal signal, which frees a command that is still listed, is not modelled.
- HpfLimiter.Plugin.Run: arithmetic is over real numbers, rounding is not modelled; sine, cosine, power, square root and hyperbolic tangent are parameters with their usual properties, and a division by zero may give anything.
- Firmware, gain and patch tables, chip selection, firmware upload, private commands, `camsnap`, the splash generator and GPIO drivers: data, or members without hard properties.
