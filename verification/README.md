# Verified models of the AIC8800 driver core

The AIC8800 Wi-Fi/Bluetooth driver keeps its hard logic in a few self-contained places: the SDIO data path,
the NAT2.5 bridge, Bluetooth HCI reassembly, MD5, the TCP ACK coalescer, the firmware command manager, and the
priority queues and CRC-8 underneath. This project models each of them in Dafny and proves what it is for.

| file | what it models |
|---|---|
| `Machine.dfy` | C integer ranges, rounding |
| `Crc8.dfy` | the CRC of the SDIO headers, as polynomial division over GF(2) |
| `Md5Rfc.dfy`, `Md5.dfy` | MD5 as RFC 1321 defines it, and the incremental program |
| `Md5Laws.dfy`, `Md5Answer.dfy` | the word operations in numbers, and the digest of "abc" as a theorem |
| `FrameQueues.dfy` | eight FIFOs with a common bound, with and without eviction |
| `RxWakeup.dfy` | interrupt side and RX thread as interleaved steps |
| `TxPath.dfy` | producers, TX thread, credits, commands and wake-ups as interleaved steps |
| `TxAggregate.dfy` | packing frames into a transfer and splitting it again |
| `RxWalk.dfy` | splitting a received buffer into records |
| `PppoeRelay.dfy` | the Relay-Session-Id rewriting, on tag lists and in place in the packet |
| `NatDb.dfy` | the sixteen intrusive hash chains with back-pointers, ageing and use counts |
| `HciReassembly.dfy` | HCI frames put together from fragments |
| `BtRing.dfy` | the ring between the HCI receiver and the character device |
| `TcpAck.dfy` | the ACK coalescer: slots, timer, completion, ownership |
| `CmdMgr.dfy` | request, confirm and timeout of firmware commands |

Code that changes state is a class or a method with loops, proved against a specification function; the
properties of those functions are lemmas. Code whose difficulty is interleaving (RX, TX, the ACK slots, the
command manager) is also a transition system in which each locked section or atomic access is one step, and
the results hold for every sequence of steps. `dafny verify dfyconfig.toml` checks everything.

A specification function that a method and a lemma both use is itself pinned by a statement that does not use it:
numbers, bytes on the wire, positions, or a history told from the list of events. Such are the known answers
`Crc8.CheckValue` and `Md5Answer.DigestOfAbc`, the laws in integers of `Md5Laws`, the printers of
`HciReassembly.SentIsReceived` and `RxWalk.SentIsHandled`, the byte layouts of `TxAggregate.RecordBytes`,
`PppoeRelay.InsertedOnWire`, `NatDb.HashBytes` and `NatDb.Ipv4Keys`, and the histories of `TcpAck.SlotIsItsPast`,
`TxPath.SentInClassOrder`, `NatDb.StoredIsLast`, `BtRing.QueueIsLastAccepted` and `CmdMgr.AnswersExactly`.

## What turned out not to hold as written

Each of these is kept as the code has it. The lemma named first is an if-and-only-if over all inputs or all
runs; the second, where there is one, is a concrete input or a run from the initial state that fails.

* **PPPoE insertion** (`aic_br_ext.c:97`). The tag length is in network order and is read without conversion,
  so the insertion writes the intended list if and only if the host is big-endian
  (`PppoeRelay.InsertExactOnBigEndian`, `PppoeRelay.Skb.InsertRelay`). On a little-endian host it fails or
  inserts at least 2052 bytes. A failed insertion has already removed the client's relay tag.
* **PPPoE round trip.** It restores the client's tags if and only if its relay tag was not present but empty
  (`PppoeRelay.RoundTrip`); one longer than 28 bytes is refused.
* **RX walk.** The loop ends if and only if it meets no data record of length 65473 to 65476
  (`RxWalk.SpinsExactly`, `RxWalk.SpinningBuffer`). Copies stay inside the buffer if and only if the walk stops
  inside it and no rounded length wraps (`RxWalk.InsideExactly`).
* **MD5 update.** The loop test `i+64 <= inputlen` wraps in 32 bits for lengths within 64 of 2^32: the test is
  right, and the loop ends, if and only if the length is below that limit (`Md5.GuardExactIff`,
  `Md5.LoopEndsExactly`, `Md5.LongestLengthWraps`).
* **Aggregation.** Splitting gives back the frames if and only if every covered length is 1 to 4095; on the older
  chips that is a frame of at most 4092 bytes (`TxAggregate.FramingExact`, `TxAggregate.FirstLengthLost`). Every
  batch within a batch limit and a frame length fits the buffer if and only if the largest one does; with the
  default limit of 32 that is 3068 bytes a frame (`TxAggregate.CapacityExact`, `TxAggregate.DefaultLimit`).
* **TX wake-up.** In a sleep that nothing is going to end, everything is sent if and only if the last command
  transfer was not refused for want of command buffers (`TxPath.NoLostWakeup`, `TxPath.FailedCommandStrandsPacket`);
  and without such a refusal the thread does come to that rest, with everything sent in order (`TxPath.AllGetsSent`).
  Packets wait there if and only if the command branch last left the send loop without credits, or with credits and
  two or more packets queued (`TxPath.PacketsWaitExactly`).
* **TX commands.** The command buffer holds one. In such a sleep every submitted command has been sent if and only if
  the last transfer was not refused, no submission found an earlier command waiting, and no bus error occurred
  (`TxPath.CommandsSentExactly`, `TxPath.CommandOverwritten`).
* **Sleep test.** `rx_cnt` reads as idle with a buffer in the driver if and only if the producer holds the only one,
  or has queued the only one and not counted it (`RxWakeup.CountMissesExactly`); `tx_pktcnt` does with a packet in
  the driver if and only if the only one is queued and not counted (`TxPath.SleepMissesOnlyUncounted`).
* **RX wake-up.** With room for two buffers (the driver has 2000), no run loses a wake-up if and only if there is at
  most one producer (`RxWakeup.OneProducerExactly`, `RxWakeup.TwoOfManyLoseWakeup`).
* **NAT2.5 use counts** leave their range if and only if a lookup hits an entry whose count is already 2^31-1
  (`NatDb.UsesWrapExactly`, `NatDb.TopCountWraps`).
* **HCI reassembly** is independent of the cutting if and only if every frame fits its buffer
  (`HciReassembly.CuttingDoesNotMatter`, `HciReassembly.OversizedScoLost`); otherwise the rest of the chunk is lost.
  That is up to 1024 bytes of ACL payload and 252 of SCO (`HciReassembly.SentIsReceived`,
  `HciReassembly.LongerIsDropped`).
* **ACK coalescing** frees only superseded ACKs, over all runs, if and only if none of three things can happen: a
  slot going to another flow between the match and its lock, a slot being taken while it still holds a message, or
  a slot holding one at teardown (`TcpAck.LosesExactly`, with the runs `TcpAck.RaceLoses`, `TcpAck.TakeoverLoses` and
  `TcpAck.DrainLoses`). For a single call after any run the exact condition is `TcpAck.UnsupersededExactly`.
* **ACK timer.** A held ACK has no armed timer if and only if the timer has fired since, and found another ACK
  under way or the slot expired (`TcpAck.HeldUntimedExactly`, `TcpAck.HeldUntimed`).
* **Command timeouts.** A timeout crashes the manager and fails its caller even when the confirm came between
  the end of the wait and the lock, which is the case if and only if the command is no longer listed
  (`CmdMgr.TimeOutOutcome`, `CmdMgr.ConfirmedYetTimedOut`).

Two things are as written but may surprise: a NAT2.5 lookup of an expired entry answers 1 and rewrites nothing
(`NatDb.Bridge.LookupAndReplace`), and on eviction the newcomer goes to the tail of the victim's class
(`FrameQueues.FrameQueue.EnqueueEvicting`, `FrameQueues.NewcomerInVictimsClass`).

## Model

| member | source | states |
|---|---|---|
| `Crc8.Crc8Ponl107` | src/aic8800-vendor/aic8800_bsp/aicsdio.c:2009-2031 | the nested loops compute the checksum of the first calSize bytes |
| `Crc8.ClockByte` | src/aic8800-vendor/aic8800_fdrv/aicwf_sdio.c:3380-3393 | the inner loop feeds the eight bits of one byte, highest first |
| `Crc8.ClockBit` | src/aic8800-vendor/aic8800_fdrv/aicwf_sdio.c:3380-3393 | one turn of that loop clocks the register once |
| `Crc8.CrcIsRemainder` | src/aic8800-vendor/aic8800_bsp/aicsdio.c:2009-2031 | the checksum is the remainder of M(x)x^8 by x^8+x^2+x+1, and no other polynomial is |
| `Crc8.Division` | src/aic8800-vendor/aic8800_bsp/aicsdio.c:2009-2031 | gives the quotient that goes with the remainder in the register |
| `Crc8.RemainderUnique` | src/aic8800-vendor/aic8800_bsp/aicsdio.c:2009-2031 | division by the generator has one remainder of degree below 8 |
| `Crc8.CrcIsRun` | src/aic8800-vendor/aic8800_bsp/aicsdio.c:2014-2028 | the byte register is the polynomial shift register |
| `Crc8.CrcLinear` | src/aic8800-vendor/aic8800_bsp/aicsdio.c:2009-2031 | XOR of equally long messages XORs their checksums |
| `Crc8.ResidueZero` | src/aic8800-vendor/aic8800_bsp/aicsdio.c:2009-2031 | message plus one byte checks to 0 exactly when that byte is the checksum |
| `Crc8.BurstDetected` | src/aic8800-vendor/aic8800_bsp/aicsdio.c:2009-2031 | every non-zero error within 8 consecutive bits changes the checksum |
| `Crc8.CheckValue` | src/aic8800-vendor/aic8800_bsp/aicsdio.c:2009-2031 | the checksum of the text 123456789 is 0xF4, the catalogued check value of the polynomial |
| `Md5.Transform` | src/aic8800-vendor/aic8800_bsp/md5.c:79-161 | the unrolled, register-rotating rounds are the 64 steps of RFC 1321 section 3.4 on the block; the steps themselves are pinned by `Md5Answer.DigestOfAbc` and `Md5Laws` |
| `Md5.RoundOne` | src/aic8800-vendor/aic8800_bsp/md5.c:87-102 | the 16 FF macros are steps 1 to 16 |
| `Md5.RoundTwo` | src/aic8800-vendor/aic8800_bsp/md5.c:104-120 | the 16 GG macros are steps 17 to 32 |
| `Md5.RoundThree` | src/aic8800-vendor/aic8800_bsp/md5.c:122-138 | the 16 HH macros are steps 33 to 48 |
| `Md5.RoundFour` | src/aic8800-vendor/aic8800_bsp/md5.c:140-156 | the 16 II macros are steps 49 to 64 |
| `Md5.FourSteps` | src/aic8800-vendor/aic8800_bsp/md5.c:87-156 | four steps with rotated arguments bring the registers back to their places |
| `Md5.MacroIsOperation` | src/aic8800-vendor/aic8800_bsp/md5.c:87-156 | the macro, which rotates by two shifts, is the operation of the RFC, which rotates by single positions |
| `Md5.RotateIsCircular` | src/aic8800-vendor/aic8800_bsp/md5.h:16 | the two shifts together are n single circular shifts, for every n up to 32 |
| `Md5Laws.RotatesValue` | src/aic8800-vendor/aic8800_bsp/md5.h:16 | in integers: rotating x by n up to 32 gives x * 2^n mod 2^32 plus x / 2^(32-n) |
| `Md5Laws.FunctionsByDigit` | src/aic8800-vendor/aic8800_bsp/md5.h:12-15 | binary digit by binary digit, x / 2^k mod 2: F chooses by x, G by z, H is the parity, I is y against x or not z |
| `Md5Answer.DigestOfAbc` | src/aic8800-vendor/aic8800_bsp/md5.c:9-161 | the digest of "abc" is 900150983cd24fb0d6963f7d28e17f72 |
| `Md5Answer.AbcPadded` | src/aic8800-vendor/aic8800_bsp/md5.c:42-52 | its padded block, byte by byte |
| `Md5.Decode` | src/aic8800-vendor/aic8800_bsp/md5.c:66-78 | bytes become words, low-order byte first |
| `Md5.Encode` | src/aic8800-vendor/aic8800_bsp/md5.c:53-65 | words become bytes, low-order byte first |
| `Md5.Context.Init` | src/aic8800-vendor/aic8800_bsp/md5.c:9-17 | the context represents the empty message |
| `Md5.Context.AddCount` | src/aic8800-vendor/aic8800_bsp/md5.c:23-26 | the two counter words stay the 64-bit bit length |
| `Md5.CountAdds` | src/aic8800-vendor/aic8800_bsp/md5.c:23-26 | the carry test and the shifted-out bits add up to a 64-bit addition |
| `Md5.Context.Update` | src/aic8800-vendor/aic8800_bsp/md5.c:18-41 | the context then represents the message with the input appended: chain over the whole blocks, buffer the tail, counter the bit length |
| `Md5.Context.WholeBlocks` | src/aic8800-vendor/aic8800_bsp/md5.c:30-33 | the buffered block and those whole in the input are absorbed |
| `Md5.Context.TransformRest` | src/aic8800-vendor/aic8800_bsp/md5.c:32-33 | the loop absorbs every block that lies whole in the input |
| `Md5.Context.Final` | src/aic8800-vendor/aic8800_bsp/md5.c:42-52 | yields the RFC 1321 digest of the represented message, and of "abc" the bytes of section A.5 |
| `Md5.PadLength` | src/aic8800-vendor/aic8800_bsp/md5.c:46-47 | the padding length is the one of section 3.1 |
| `Md5.DigestOfPieces` | src/aic8800-vendor/aic8800_bsp/md5.c:9-52 | for every cutting into updates the digest is that of the joined message |
| `Md5.GuardExactIff` | src/aic8800-vendor/aic8800_bsp/md5.c:32-33 | the 32-bit loop test is right at every reachable position iff the length is below the limit |
| `Md5.LoopEndsExactly` | src/aic8800-vendor/aic8800_bsp/md5.c:32-33 | the loop leaves after some number of rounds iff the length is below the limit |
| `Md5.LongestLengthWraps` | src/aic8800-vendor/aic8800_bsp/md5.c:32-33 | with length 2^32-1 the test holds where no whole block is left |
| `FrameQueues.FrameQueue.Penq` | src/aic8800-vendor/aic8800_bsp/aicsdio_txrxif.c:323-337 | appends in a class with room, raises the upper bound, else changes nothing |
| `FrameQueues.FrameQueue.PeekTail` | src/aic8800-vendor/aic8800_bsp/aicsdio_txrxif.c:368-383 | finds the lowest class that holds a packet |
| `FrameQueues.FrameQueue.IsEmpty` | src/aic8800-vendor/aic8800_bsp/aicsdio_txrxif.c:385-396 | agrees with the count |
| `FrameQueues.FrameQueue.Dequeue` | src/aic8800-vendor/aic8800_bsp/aicsdio_txrxif.c:398-418 | takes the oldest packet of the highest class that holds one |
| `FrameQueues.FrameQueue.EnqueueEvicting` | src/aic8800-vendor/aic8800_bsp/aicsdio_txrxif.c:432-462 | a full queue refuses, or replaces the newest packet of the lowest class below the newcomer's |
| `FrameQueues.FrameQueue.Enqueue` | src/aic8800-vendor/aic8800_fdrv/aicwf_txrxif.c:785-823 | a full queue refuses, else the packet goes to the tail of its class |
| `FrameQueues.FrameQueue.Flush` | src/aic8800-vendor/aic8800_bsp/aicsdio_txrxif.c:339-353 | empties every class |
| `FrameQueues.PacketsConserved` | src/aic8800-vendor/aic8800_bsp/aicsdio_txrxif.c:398-462 | over any run each packet is queued, handed out, evicted or refused, once; at the end the count, the bound and the upper bound are right |
| `FrameQueues.StepKeepsValid` | src/aic8800-vendor/aic8800_bsp/aicsdio_txrxif.c:398-462 | every call keeps the count exact and bounded and the classes above the upper bound empty |
| `FrameQueues.StepConserves` | src/aic8800-vendor/aic8800_bsp/aicsdio_txrxif.c:398-462 | the same for one call |
| `FrameQueues.DrainsInOrder` | src/aic8800-vendor/aic8800_bsp/aicsdio_txrxif.c:398-418 | draining hands out everything, by class from the top and in order within each |
| `FrameQueues.NewcomerInVictimsClass` | src/aic8800-vendor/aic8800_bsp/aicsdio_txrxif.c:444-461 | two calls on a queue with room for one, after which the packet of class 1 is in class 0 |
| `FrameQueues.NewestOfLowestGoes` | src/aic8800-vendor/aic8800_bsp/aicsdio_txrxif.c:398-462 | a full queue of three in two classes: the newest of the lowest class is evicted, a low newcomer is refused, and the packets leave by class and age |
| `RxWakeup.NoLostWakeup` | src/aic8800-vendor/aic8800_fdrv/aicwf_sdio.c:2750-2777 | in every interleaving: consumer waiting unsignalled and producer idle means everything is handled |
| `RxWakeup.HandledInOrder` | src/aic8800-vendor/aic8800_fdrv/aicwf_txrxif.c:373-441 | buffers are handled in queue order, none twice, none skipped |
| `RxWakeup.QueueBounded` | src/aic8800-vendor/aic8800_fdrv/aicwf_txrxif.c:834-844 | for any number of producers the queue stays within its limit, and a buffer is dropped exactly when it is full |
| `RxWakeup.NextKeepsInv` | src/aic8800-vendor/aic8800_fdrv/aicwf_sdio.c:2845-2850 | every step keeps the counting invariant |
| `RxWakeup.ConsumerDrains` | src/aic8800-vendor/aic8800_fdrv/aicwf_sdio.c:2671-2687 | with the producer idle the consumer alone handles everything and comes to rest |
| `RxWakeup.CountMissesExactly` | src/aic8800-vendor/aic8800_fdrv/aicwf_sdio.c:1359-1361 | rx_cnt is 0 with a buffer in the driver iff the producer holds the only one, or the only one (queued, or already with the consumer) is not yet counted |
| `RxWakeup.OneProducerExactly` | src/aic8800-vendor/aic8800_fdrv/aicwf_sdio.c:2845-2850 | for every number of producers: no run ends with the consumer asleep on queued buffers iff there is at most one |
| `RxWakeup.TwoOfManyLoseWakeup` | src/aic8800-vendor/aic8800_fdrv/aicwf_sdio.c:2845-2850 | for every number from two up, a run after which two buffers wait unannounced |
| `TxPath.NothingStranded` | src/aic8800-vendor/aic8800_fdrv/aicwf_sdio.c:1929-1953 | outside the send loop the aggregation buffer is empty, whatever the producers do |
| `TxPath.CreditsNeverOverspent` | src/aic8800-vendor/aic8800_fdrv/aicwf_sdio.c:2095-2149 | no batch exceeds the batch limit or its credits, two credits always remain, and at the loop head both bounds are strict |
| `TxPath.GrantNeverExceeded` | src/aic8800-vendor/aic8800_fdrv/aicwf_sdio.c:2095-2140 | between two readings of the flow-control register transfers leave at least two of the buffers granted, and at the loop head the credits are what is left |
| `TxPath.CreditsReadAfresh` | src/aic8800-vendor/aic8800_fdrv/aicwf_sdio.c:1929-1944 | a round that finds packets, and every wait for credits, takes what the register says then |
| `TxPath.AccountKept` | src/aic8800-vendor/aic8800_fdrv/aicwf_sdio.c:1929-2140 | every thread step keeps that account |
| `TxPath.SleepSeesBuffered` | src/aic8800-vendor/aic8800_fdrv/aicwf_sdio.c:1359-1361 | packets in the aggregation buffer keep tx_pktcnt positive at every step |
| `TxPath.SleepMissesOnlyUncounted` | src/aic8800-vendor/aic8800_fdrv/aicwf_sdio.c:2004-2010 | tx_pktcnt reads idle with a packet in the driver exactly between enqueue and count of the only one |
| `TxPath.PacketsConserved` | src/aic8800-vendor/aic8800_fdrv/aicwf_sdio.c:2103-2149 | every accepted packet is queued, in hand, aggregated or sent, exactly once; `TxPath.SentInClassOrder` adds the order |
| `TxPath.SentInClassOrder` | src/aic8800-vendor/aic8800_fdrv/aicwf_sdio.c:1993-2005 | for each of the 8 classes, given by the low bits of the priority: the accepted packets in order of acceptance are those sent, aggregated, in hand, and queued in that class |
| `TxPath.TakesOldestOfHighest` | src/aic8800-vendor/aic8800_fdrv/aicwf_sdio.c:2103-2104 | what the thread takes is the oldest accepted packet of its class not yet taken, and no higher class is queued |
| `TxPath.QueueBounded` | src/aic8800-vendor/aic8800_fdrv/aicwf_sdio.c:1994-2004 | the queue stays within its limit, and a packet is accepted exactly when there is room and the lock is free |
| `TxPath.AllGetsSent` | src/aic8800-vendor/aic8800_fdrv/aicwf_sdio.c:1929-1953 | after any run, with the producers done and buffers granted, the thread alone comes to rest; unless a command transfer was refused, all packets are then sent, each class in order, and no command waits |
| `TxPath.NoLostWakeup` | src/aic8800-vendor/aic8800_fdrv/aicwf_sdio.c:2506-2563 | a thread asleep with no signal on its way has sent everything, with no command waiting, iff the last command transfer was not refused |
| `TxPath.PacketsWaitExactly` | src/aic8800-vendor/aic8800_fdrv/aicwf_sdio.c:1941-1952 | packets wait in such a sleep iff the command branch last left the loop without credits or with two or more queued; exactly those packets, less the one sent |
| `TxPath.LeavingKept` | src/aic8800-vendor/aic8800_fdrv/aicwf_sdio.c:1932-1953 | every thread step keeps the account of what the command branch leaves behind |
| `TxPath.FailedCommandStrandsPacket` | src/aic8800-vendor/aic8800_fdrv/aicwf_sdio.c:1941-1944 | a run that shows the failed-command exception is needed |
| `TxPath.CommandsConserved` | src/aic8800-vendor/aic8800_fdrv/aicwf_sdio.c:1844-1875 | every submitted command waits, was sent, was overwritten, or was lost to a bus error, once; sent ones keep their order |
| `TxPath.CommandsSentExactly` | src/aic8800-vendor/aic8800_fdrv/aicwf_sdio.c:2034-2046 | in a sleep with no signal on its way, every submitted command has been sent iff none was refused last, overwritten or broken off |
| `TxPath.CommandOverwritten` | src/aic8800-vendor/aic8800_fdrv/aicwf_sdio.c:2034-2039 | a run of two submissions of which the first is never sent |
| `TxPath.NextKeepsInv` | src/aic8800-vendor/aic8800_fdrv/aicwf_sdio.c:1929-2149 | every step of producers, submitters and TX thread keeps the invariant |
| `TxPath.CountingKept` | src/aic8800-vendor/aic8800_fdrv/aicwf_sdio.c:2004-2149 | tx_pktcnt is queued plus in-hand packets, less the one being added |
| `TxPath.WakeupsKept` | src/aic8800-vendor/aic8800_fdrv/aicwf_sdio.c:2506-2563 | a sleeping thread with work has a completion pending or coming |
| `TxAggregate.FramingExact` | src/aic8800-vendor/aic8800_fdrv/aicwf_sdio.c:2216-2264 | splitting the transfer gives back the frames iff every covered length is 1 to 4095 |
| `TxAggregate.D80RoundTrip` | src/aic8800-vendor/aic8800_fdrv/aicwf_sdio.c:2224-2248 | on D80 chips the frames come back unchanged behind verified headers iff each is shorter than 4096 bytes and not empty |
| `TxAggregate.LengthLimit` | src/aic8800-vendor/aic8800_fdrv/aicwf_sdio.c:2250-2254 | the limit per frame, chip by chip |
| `TxAggregate.FirstLengthLost` | src/aic8800-vendor/aic8800_fdrv/aicwf_sdio.c:2250-2254 | a 4093-byte frame is lost on the older chips |
| `TxAggregate.RecordBytes` | src/aic8800-vendor/aic8800_fdrv/aicwf_sdio.c:2216-2264 | a record byte by byte: length, type 1, fourth byte, frame, fewer than four zeros; on D80 chips the four header bytes check to 0 |
| `TxAggregate.HeaderChecks` | src/aic8800-vendor/aic8800_fdrv/aicwf_sdio.c:2224 | a header whose last byte is the computed checksum has the CRC residue 0 |
| `TxAggregate.BadHeaderRefused` | src/aic8800-vendor/aic8800_fdrv/aicwf_sdio.c:2224 | the D80 splitter takes nothing from a header with another residue |
| `TxAggregate.CapacityExact` | src/aic8800-vendor/aic8800_fdrv/aicwf_sdio.c:2095-2101 | every batch within a batch limit and a frame length fits the buffer iff the largest one does |
| `TxAggregate.DefaultLimit` | src/aic8800-vendor/aic8800_fdrv/aicwf_sdio.c:64 | with the default limit of 32 that is 3068 bytes a frame |
| `TxAggregate.TxBuffer.Aggregate` | src/aic8800-vendor/aic8800_fdrv/aicwf_sdio.c:2216-2264 | the buffer then encodes one frame more |
| `TxAggregate.TxBuffer.AggrSend` | src/aic8800-vendor/aic8800_fdrv/aicwf_sdio.c:2302-2323 | the transfer is whole blocks, less than one block longer than the data, and stale bytes behind the data never read as a frame |
| `TxAggregate.TxBuffer.Reset` | src/aic8800-vendor/aic8800_fdrv/aicwf_sdio.c:2325-2357 | the buffer is empty again |
| `TxAggregate.RoomForTail` | src/aic8800-vendor/aic8800_fdrv/aicwf_sdio.c:2308-2313 | the 4-byte zero tail always fits in the last block |
| `RxWalk.WalkInvertsLayout` | src/aic8800-vendor/aic8800_fdrv/aicwf_txrxif.c:312-364 | a buffer laid out as records is dispatched as exactly those records, in order, and the walk ends |
| `RxWalk.SentIsHandled` | src/aic8800-vendor/aic8800_fdrv/aicwf_txrxif.c:312-364 | a buffer printed from transfers for given handlers, with the types 0x11, 0x12, 0x13 and bit 4 as numbers: each handler gets exactly its own, in order |
| `RxWalk.SpinsExactly` | src/aic8800-vendor/aic8800_fdrv/aicwf_txrxif.c:312-341 | for every buffer the walk ends iff it meets no data record of length 65473 to 65476 |
| `RxWalk.SpinningBuffer` | src/aic8800-vendor/aic8800_fdrv/aicwf_txrxif.c:317-322 | a 4-byte buffer on which it does not end |
| `RxWalk.AdvanceZero` | src/aic8800-vendor/aic8800_fdrv/aicwf_txrxif.c:317-342 | the 16-bit rounding gives no movement for exactly those four lengths |
| `RxWalk.InsideExactly` | src/aic8800-vendor/aic8800_fdrv/aicwf_txrxif.c:312-364 | in a transfer of the largest size or less, every copy lies inside the buffer iff the walk stops inside it and no rounded length wraps |
| `RxWalk.Advance` | src/aic8800-vendor/aic8800_fdrv/aicwf_txrxif.c:316-361 | keeps the read offset a multiple of 4 |
| `RxWalk.RxBuffer.AnotherPacket` | src/aic8800-vendor/aic8800_fdrv/aicwf_txrxif.c:246-263 | the alignment check cannot fail; true iff a record with non-zero length follows |
| `RxWalk.RxBuffer.Measure` | src/aic8800-vendor/aic8800_fdrv/aicwf_txrxif.c:313-361 | the branch on the type gives the copy length, the step and the handler of the record |
| `RxWalk.RxBuffer.Process` | src/aic8800-vendor/aic8800_fdrv/aicwf_txrxif.c:312-364 | the loop is the walk, for every buffer |
| `PppoeRelay.RoundTrip` | src/aic8800-vendor/aic8800_fdrv/aic_br_ext.c:1113-1228 | stripping an inserted tag restores the client's tags, relay tag first, and its MAC, iff the relay tag was not present-but-empty |
| `PppoeRelay.EchoRestored` | src/aic8800-vendor/aic8800_fdrv/aic_br_ext.c:1184-1225 | the tag echoed among a concentrator's own tags is restored in place and those tags are kept |
| `PppoeRelay.InsertedOnWire` | src/aic8800-vendor/aic8800_fdrv/aic_br_ext.c:1113-1152 | the inserted tag byte by byte: 0x0110, length, 0x8186, the MAC, the old value |
| `PppoeRelay.StrippableBytes` | src/aic8800-vendor/aic8800_fdrv/aic_br_ext.c:1192-1212 | in bytes, which lists may be stripped, and where the MAC is |
| `PppoeRelay.TagOnWire` | src/aic8800-vendor/aic8800_fdrv/aic_br_ext.c:83-88 | type and length of a tag in network order, then the value |
| `PppoeRelay.InsertExactOnBigEndian` | src/aic8800-vendor/aic8800_fdrv/aic_br_ext.c:92-109 | the bytes written are the intended list iff the host is big-endian |
| `PppoeRelay.HostLengthExact` | src/aic8800-vendor/aic8800_fdrv/aic_br_ext.c:97 | the length read is the length meant iff the host is big-endian |
| `PppoeRelay.Skb.FindTag` | src/aic8800-vendor/aic8800_fdrv/aic_br_ext.c:74-89 | finds the first relay tag, or none, for every well-formed list |
| `PppoeRelay.Skb.AddTag` | src/aic8800-vendor/aic8800_fdrv/aic_br_ext.c:92-109 | with room the tag area is the copied bytes before the old area and the length agrees; headers stay; without room nothing changes |
| `PppoeRelay.Skb.PullAndMerge` | src/aic8800-vendor/aic8800_fdrv/aic_br_ext.c:111-130 | the bytes behind the cut move down, or nothing changes |
| `PppoeRelay.Skb.RemoveTag` | src/aic8800-vendor/aic8800_fdrv/aic_br_ext.c:1133-1137 | the packet then holds the list without that tag, with the right length |
| `PppoeRelay.Skb.ShortenTag` | src/aic8800-vendor/aic8800_fdrv/aic_br_ext.c:1216-1225 | the packet then holds the list with magic and MAC taken out of that tag |
| `PppoeRelay.Skb.TakeOldRelay` | src/aic8800-vendor/aic8800_fdrv/aic_br_ext.c:1122-1138 | returns the old value and removes its tag, or refuses more than 28 bytes untouched |
| `PppoeRelay.Skb.InsertRelay` | src/aic8800-vendor/aic8800_fdrv/aic_br_ext.c:1113-1154 | what the packet holds in each outcome; on success the intended list iff big-endian |
| `PppoeRelay.Skb.CheckRelay` | src/aic8800-vendor/aic8800_fdrv/aic_br_ext.c:1192-1212 | accepts exactly a relay tag of 8 bytes or more that starts with the magic number |
| `PppoeRelay.Skb.LookupRelay` | src/aic8800-vendor/aic8800_fdrv/aic_br_ext.c:1184-1228 | destination becomes the client's MAC and the list is the stripped one, or nothing changes |
| `PppoeRelay.Skb.ThereAndBack` | src/aic8800-vendor/aic8800_fdrv/aic_br_ext.c:1113-1228 | both directions on one packet of a big-endian host: the client's tags are back in place, relay tag first, and the frame is addressed to the client; when it is refused |
| `NatDb.Hash` | src/aic8800-vendor/aic8800_fdrv/aic_br_ext.c:315-364 | every address has one of the 16 buckets |
| `NatDb.HashBytes` | src/aic8800-vendor/aic8800_fdrv/aic_br_ext.c:315-364 | for each address type, which bytes are combined into the bucket |
| `NatDb.Ipv4Keys` | src/aic8800-vendor/aic8800_fdrv/aic_br_ext.c:152-159 | the 17 bytes of an IPv4 key; different addresses have different keys |
| `NatDb.ExpiredIsElapsed` | src/aic8800-vendor/aic8800_fdrv/aic_br_ext.c:132-149 | the wrapping test is the plain comparison of elapsed time |
| `NatDb.Bridge.constructor` | src/aic8800-vendor/aic8800_fdrv/rwnx_defs.h:413-418 | sixteen empty chains are the empty table |
| `NatDb.Bridge.Find` | src/aic8800-vendor/aic8800_fdrv/aic_br_ext.c:481-492 | the loop over one chain finds the entry of an address, wherever it is stored, or none |
| `NatDb.Bridge.Link` | src/aic8800-vendor/aic8800_fdrv/aic_br_ext.c:367-381 | the entry is the new head and both link directions agree; other buckets stay |
| `NatDb.Bridge.Unlink` | src/aic8800-vendor/aic8800_fdrv/aic_br_ext.c:384-397 | cutting through the back-pointer alone leaves a consistent chain without the entry |
| `NatDb.Bridge.Attach` | src/aic8800-vendor/aic8800_fdrv/aic_br_ext.c:367-381 | all 16 chains stay acyclic, disjoint and back-linked, each entry in its own bucket |
| `NatDb.Bridge.Detach` | src/aic8800-vendor/aic8800_fdrv/aic_br_ext.c:384-397 | the same after a removal |
| `NatDb.Bridge.Remove` | src/aic8800-vendor/aic8800_fdrv/aic_br_ext.c:609-615 | the shortcut never points at a freed entry |
| `NatDb.Bridge.Refresh` | src/aic8800-vendor/aic8800_fdrv/aic_br_ext.c:484-489 | a known address takes the new MAC and time, its use count stays; over runs see `NatDb.StoredIsLast` |
| `NatDb.Bridge.AddNew` | src/aic8800-vendor/aic8800_fdrv/aic_br_ext.c:494-508 | an unknown address is stored with one use |
| `NatDb.Bridge.Insert` | src/aic8800-vendor/aic8800_fdrv/aic_br_ext.c:473-508 | the chains refine the abstract map insertion and hold what all calls so far amount to (see `NatDb.StoredIsLast`) |
| `NatDb.Bridge.LookupAndReplace` | src/aic8800-vendor/aic8800_fdrv/aic_br_ext.c:400-470 | answers whether the address is stored; iff the entry is not expired it counts a use and writes the MAC of the last insertion of that address, told from the calls so far, into the frame |
| `NatDb.Bridge.Answer` | src/aic8800-vendor/aic8800_fdrv/aic_br_ext.c:408-412 | a fresh entry gives its MAC and counts a use |
| `NatDb.Bridge.Touch` | src/aic8800-vendor/aic8800_fdrv/rwnx_tx.c:1096-1108 | the entry takes the time and nothing else changes |
| `NatDb.Bridge.Shortcut` | src/aic8800-vendor/aic8800_fdrv/rwnx_tx.c:1090-1112 | which senders bypass the table, whose entry is refreshed, and what the shortcut then holds |
| `NatDb.Bridge.ExpireEntry` | src/aic8800-vendor/aic8800_fdrv/aic_br_ext.c:640-700 | one entry is expired as the abstract map says, and no other changes |
| `NatDb.Bridge.ExpireBucket` | src/aic8800-vendor/aic8800_fdrv/aic_br_ext.c:632-703 | a chain that shrinks while it is walked is scanned completely, each entry once |
| `NatDb.Bridge.Expire` | src/aic8800-vendor/aic8800_fdrv/aic_br_ext.c:625-709 | the whole scan is one expiry of the abstract map |
| `NatDb.Bridge.Cleanup` | src/aic8800-vendor/aic8800_fdrv/aic_br_ext.c:597-622 | no entry, no chain and no shortcut is left |
| `NatDb.StoredIsLast` | src/aic8800-vendor/aic8800_fdrv/aic_br_ext.c:400-709 | after any run, from the list of operations alone: an address is stored iff it has uses left; its MAC is that of its last insertion and its stamp the time of its last insertion or touch |
| `NatDb.StaysWhileFresh` | src/aic8800-vendor/aic8800_fdrv/aic_br_ext.c:625-709 | without a cleanup, an address inserted and never found out of date by a scan is still stored |
| `NatDb.UsesWrapExactly` | src/aic8800-vendor/aic8800_fdrv/aic_br_ext.c:412 | use counts leave 1 to 2^31-1 in a step iff a lookup hits an entry at the top |
| `NatDb.UsesStayPositive` | src/aic8800-vendor/aic8800_fdrv/aic_br_ext.c:400-709 | in any run with fewer than 2^31-1 lookups every use count is at least 1 |
| `NatDb.LookupsCount` | src/aic8800-vendor/aic8800_fdrv/aic_br_ext.c:412 | n lookups of a fresh entry leave it with n+1 uses, up to 2^31-1 |
| `NatDb.TopCountWraps` | src/aic8800-vendor/aic8800_fdrv/aic_br_ext.c:412 | a run of 2^31-1 lookups that leaves a stored entry with a negative count |
| `NatDb.GoneAfterItsUses` | src/aic8800-vendor/aic8800_fdrv/aic_br_ext.c:640-700 | an entry outlives a series of scans iff fewer of them find it expired than it has uses |
| `NatDb.AddedStaysIndexed` | src/aic8800-vendor/aic8800_fdrv/aic_br_ext.c:502-505 | an addition keeps one entry per address, in the bucket of its hash |
| `NatDb.RemovedStaysIndexed` | src/aic8800-vendor/aic8800_fdrv/aic_br_ext.c:384-397 | so does a removal |
| `HciReassembly.CuttingDoesNotMatter` | src/aic8800-vendor/aic8800_fdrv/aic_btsdio.c:672-806 | for every cutting and interleaving the delivered frames and the kept bytes of a type are those of the whole-stream decoder iff every frame fits |
| `HciReassembly.SentIsReceived` | src/aic8800-vendor/aic8800_fdrv/aic_btsdio.c:672-806 | packets printed as bytes, with payloads up to 1024, 252 and 255: for every sequence, cutting and interleaving exactly these are delivered, and the first bytes of an unfinished one are kept |
| `HciReassembly.LongerIsDropped` | src/aic8800-vendor/aic8800_fdrv/aic_btsdio.c:742-768 | an ACL header announcing more than 1024 bytes, or an SCO header more than 252, is dropped with the rest of its chunk |
| `HciReassembly.HciDev.Reassemble` | src/aic8800-vendor/aic8800_fdrv/aic_btsdio.c:672-787 | one call delivers at most one frame, keeps an unfinished one, or drops an oversized one, and says what is left over |
| `HciReassembly.Fill` | src/aic8800-vendor/aic8800_fdrv/aic_btsdio.c:719-784 | the copying loop stops at the frame's end, at the data's end, or at an oversized header; the lengths are pinned by `HciReassembly.SentIsReceived` |
| `HciReassembly.HciDev.RecvFragment` | src/aic8800-vendor/aic8800_fdrv/aic_btsdio.c:789-806 | a fragment of any length has the effect of parsing kept bytes plus fragment at once, with result 0 or -12, or -84 for another type; it terminates |
| `HciReassembly.ParseResumes` | src/aic8800-vendor/aic8800_fdrv/aic_btsdio.c:672-806 | parsing may stop anywhere and resume from the kept bytes |
| `HciReassembly.FitsIsParse` | src/aic8800-vendor/aic8800_fdrv/aic_btsdio.c:728-768 | parsing succeeds iff all frames fit, and then agrees with the decoder |
| `HciReassembly.RunIsParse` | src/aic8800-vendor/aic8800_fdrv/aic_btsdio.c:789-806 | a run over interleaved chunks parses each type's joined stream |
| `HciReassembly.RunSize` | src/aic8800-vendor/aic8800_fdrv/aic_btsdio.c:728-768 | bytes are lost whenever a frame does not fit |
| `HciReassembly.BytesKept` | src/aic8800-vendor/aic8800_fdrv/aic_btsdio.c:719-784 | frames plus kept bytes account for every byte, or for fewer iff parsing failed |
| `HciReassembly.EventsAlwaysFit` | src/aic8800-vendor/aic8800_fdrv/aic_btsdio.c:695-698 | no event can be oversized |
| `HciReassembly.OversizedScoLost` | src/aic8800-vendor/aic8800_fdrv/aic_btsdio.c:755-766 | a SCO header announcing 253 bytes is dropped |
| `BtRing.Ring.Enqueue` | src/aic8800-vendor/aic8800_fdrv/aic_btsdio.c:343-364 | the packet goes last, or -1 exactly with 499 packets queued |
| `BtRing.Ring.DequeueTry` | src/aic8800-vendor/aic8800_fdrv/aic_btsdio.c:366-398 | returns the whole first packet; the queue loses only what was asked for |
| `BtRing.Ring.QueueCnt` | src/aic8800-vendor/aic8800_fdrv/aic_btsdio.c:423-440 | the index arithmetic is the number of queued packets |
| `BtRing.Ring.Clear` | src/aic8800-vendor/aic8800_fdrv/aic_btsdio.c:405-421 | the queue is empty and the loop ends |
| `BtRing.Ring.ReadBytes` | src/aic8800-vendor/aic8800_fdrv/aic_btsdio.c:900-945 | a read gets the front of the first packet and the rest stays |
| `BtRing.StreamsAgree` | src/aic8800-vendor/aic8800_fdrv/aic_btsdio.c:343-398 | in every interleaving, bytes read followed by bytes queued are the accepted packets joined; at most 499 packets |
| `BtRing.QueueIsLastAccepted` | src/aic8800-vendor/aic8800_fdrv/aic_btsdio.c:343-398 | in every run the queue is the last accepted packets, the first of them without the bytes already read; a packet leaves with its last byte |
| `BtRing.ReadTakesFromFront` | src/aic8800-vendor/aic8800_fdrv/aic_btsdio.c:922-937 | a read takes its bytes off the front of the stream, and at least one from a non-empty packet |
| `TcpAck.MessagesConserved` | src/aic8800-vendor/aic8800_fdrv/aicwf_tcp_ack.c:435-629 | in every interleaving of the locked sections each message is returned, held, passed on or freed exactly as often as it was submitted |
| `TcpAck.SlotConserves` | src/aic8800-vendor/aic8800_fdrv/aicwf_tcp_ack.c:435-511 | the same for one section on one slot |
| `TcpAck.LosesExactly` | src/aic8800-vendor/aic8800_fdrv/aicwf_tcp_ack.c:96-629 | over all interleavings of fresh messages, only superseded ACKs are freed, by handling or teardown, iff neither the race between match and lock, nor the takeover of a holding slot, nor the teardown of one can happen |
| `TcpAck.UnsupersededExactly` | src/aic8800-vendor/aic8800_fdrv/aicwf_tcp_ack.c:447-490 | after any run, when handling a message frees one that no ACK of its own flow supersedes: both branches, both directions |
| `TcpAck.WithoutCauseLosesNothing` | src/aic8800-vendor/aic8800_fdrv/aicwf_tcp_ack.c:96-511 | without the three every ACK freed, by handling or teardown, is superseded |
| `TcpAck.WithoutReuseCoherent` | src/aic8800-vendor/aic8800_fdrv/aicwf_tcp_ack.c:435-511 | without them a slot's number is its own flow's and it holds only the ACK that number is from |
| `TcpAck.RunSourced` | src/aic8800-vendor/aic8800_fdrv/aicwf_tcp_ack.c:435-629 | in every interleaving what a slot carries and holds came in as a message |
| `TcpAck.RaceLoses` | src/aic8800-vendor/aic8800_fdrv/aicwf_tcp_ack.c:559-577 | a run with the race alone that frees the newest ACK of its flow |
| `TcpAck.TakeoverLoses` | src/aic8800-vendor/aic8800_fdrv/aicwf_tcp_ack.c:583-603 | a run with the takeover alone that frees the newest ACK of its flow |
| `TcpAck.DrainLoses` | src/aic8800-vendor/aic8800_fdrv/aicwf_tcp_ack.c:105-116 | a run with the teardown alone that frees the newest ACK of its flow |
| `TcpAck.HeldUntimedExactly` | src/aic8800-vendor/aic8800_fdrv/aicwf_tcp_ack.c:47-60 | in every run a held ACK has no armed timer iff its timer fired while another was under way or after expiry |
| `TcpAck.HeldUntimed` | src/aic8800-vendor/aic8800_fdrv/aicwf_tcp_ack.c:49-60 | a run after which a busy slot holds an ACK with none under way and no timer |
| `TcpAck.NineAtMost` | src/aic8800-vendor/aic8800_fdrv/aicwf_tcp_ack.c:452-483 | after any run, whatever other slots do: of consecutive in-order ACKs of a slot handled with none under way at most 9 are kept, so among 10 one is sent |
| `TcpAck.KeptCounts` | src/aic8800-vendor/aic8800_fdrv/aicwf_tcp_ack.c:459-482 | each kept ACK brings the counter one closer to the limit |
| `TcpAck.CounterInRange` | src/aic8800-vendor/aic8800_fdrv/aicwf_tcp_ack.c:464 | in every run of fewer than 2^31-11 handled ACKs no counter is negative |
| `TcpAck.BeforeIsOrder` | src/aic8800-vendor/aic8800_fdrv/aicwf_tcp_ack.h:18 | the wrapping comparison is the order of positions less than 2^31 apart, equality included |
| `TcpAck.AfterIsElapsed` | src/aic8800-vendor/aic8800_fdrv/aicwf_tcp_ack.c:289 | the wrapping test says that more than the timeout has passed |
| `TcpAck.AgedExactly` | src/aic8800-vendor/aic8800_fdrv/aicwf_tcp_ack.c:295-300 | only a slot idle for longer than the timeout becomes free |
| `TcpAck.HandleSection` | src/aic8800-vendor/aic8800_fdrv/aicwf_tcp_ack.c:435-511 | the section's new slot, verdict and freed message are those of `HandleSlot`, which `TcpAck.HandleByPosition` states in sequence positions |
| `TcpAck.HandleByPosition` | src/aic8800-vendor/aic8800_fdrv/aicwf_tcp_ack.c:435-490 | for positions less than 2^31 apart: an older ACK is freed; one beyond the pushed segment is sent at once and clears the mark; any other leaves the mark, and is sent as the tenth with none under way, else held for the timer |
| `TcpAck.SlotIsItsPast` | src/aic8800-vendor/aic8800_fdrv/aicwf_tcp_ack.c:30-629 | in every interleaving a slot's busy flag, mark, ACK under way, counter, time and number are what its events say |
| `TcpAck.PushForcesSend` | src/aic8800-vendor/aic8800_fdrv/aicwf_tcp_ack.c:452-484 | after any run, an in-order ACK beyond the last mark is returned for sending and clears it; one at or before it leaves the mark, and is held while one is under way or the counter is below the limit |
| `TcpAck.PushedThenAcked` | src/aic8800-vendor/aic8800_fdrv/aicwf_tcp_ack.c:513-582 | the same for a call of `filter_rx_tcp_ack` followed by one of `filter_send_tcp_ack` on the table |
| `TcpAck.FilteredBySlot` | src/aic8800-vendor/aic8800_fdrv/aicwf_tcp_ack.c:559-580 | the flow's slot, wherever it is, handles the ACK |
| `TcpAck.FilteredNewFlow` | src/aic8800-vendor/aic8800_fdrv/aicwf_tcp_ack.c:583-603 | a flow without a slot is sent and takes a free slot if there is one, field by field |
| `TcpAck.AckFilter.constructor` | src/aic8800-vendor/aic8800_fdrv/aicwf_tcp_ack.c:63-94 | the zeroed table is consistent and owns nothing |
| `TcpAck.AckFilter.Match` | src/aic8800-vendor/aic8800_fdrv/aicwf_tcp_ack.c:256-281 | finds the flow's slot or none |
| `TcpAck.AckFilter.Update` | src/aic8800-vendor/aic8800_fdrv/aicwf_tcp_ack.c:284-306 | exactly the stale slots become free; counters and ownership stay right |
| `TcpAck.AckFilter.AllocIndex` | src/aic8800-vendor/aic8800_fdrv/aicwf_tcp_ack.c:309-344 | gives a free slot, and -1 iff all are busy |
| `TcpAck.AckFilter.HandleNew` | src/aic8800-vendor/aic8800_fdrv/aicwf_tcp_ack.c:435-511 | one slot changes as the section says, the table stays consistent, the message has one owner |
| `TcpAck.AckFilter.FilterKnown` | src/aic8800-vendor/aic8800_fdrv/aicwf_tcp_ack.c:560-580 | the flow's own slot handles the ACK |
| `TcpAck.AckFilter.FilterUnknown` | src/aic8800-vendor/aic8800_fdrv/aicwf_tcp_ack.c:583-603 | a new flow gets a free slot exactly when there is one |
| `TcpAck.AckFilter.FilterSend` | src/aic8800-vendor/aic8800_fdrv/aicwf_tcp_ack.c:539-607 | the whole call: one slot per flow, max_num the number of busy slots, free_index a free slot, the message returned or owned |
| `TcpAck.AckFilter.FilterRx` | src/aic8800-vendor/aic8800_fdrv/aicwf_tcp_ack.c:513-536 | marks exactly the slot of the flow |
| `TcpAck.AckFilter.Timeout` | src/aic8800-vendor/aic8800_fdrv/aicwf_tcp_ack.c:30-61 | passes the held message on once, if none is under way |
| `TcpAck.AckFilter.Completed` | src/aic8800-vendor/aic8800_fdrv/aicwf_tcp_ack.c:609-629 | clears the mark in every busy slot that has it and moves no message |
| `TcpAck.AckFilter.Deinit` | src/aic8800-vendor/aic8800_fdrv/aicwf_tcp_ack.c:96-117 | nothing is held and nothing is lost |
| `TcpAck.CountFull` | src/aic8800-vendor/aic8800_fdrv/aicwf_tcp_ack.c:316-319 | the count reaches the table size iff every slot is busy |
| `CmdMgr.RunsAreSafe` | src/aic8800-vendor/aic8800_bsp/aic_bsp_driver.c:44-194 | in every run the list is counted exactly and has at most 8 entries, all waiting for a confirm; nothing is unlinked or completed twice; a successful caller was confirmed |
| `CmdMgr.StepKeeps` | src/aic8800-vendor/aic8800_bsp/aic_bsp_driver.c:44-194 | submit, confirm, timeout and wake keep the invariant |
| `CmdMgr.NeverDefers` | src/aic8800-vendor/aic8800_bsp/aic_bsp_driver.c:87-91 | the deferring branch is unreachable |
| `CmdMgr.ConfirmTakesOldest` | src/aic8800-vendor/aic8800_bsp/aic_bsp_driver.c:156-188 | a confirm completes and unlinks the oldest listed command of its id whose callback does not reject it, and touches no other |
| `CmdMgr.ConfirmForNobody` | src/aic8800-vendor/aic8800_bsp/aic_bsp_driver.c:164-191 | a confirm of an id nobody waits for, or that all reject, changes nothing |
| `CmdMgr.CompletedInOrder` | src/aic8800-vendor/aic8800_bsp/aic_bsp_driver.c:156-188 | when callbacks accept, confirms of one id complete commands in order of acceptance, in every run |
| `CmdMgr.CrashedForGood` | src/aic8800-vendor/aic8800_bsp/aic_bsp_driver.c:70-75 | the crashed state is never left and refuses every submission |
| `CmdMgr.SubmissionOutcome` | src/aic8800-vendor/aic8800_bsp/aic_bsp_driver.c:63-105 | refused iff crashed or eight wait; else last in the list |
| `CmdMgr.TimeOutOutcome` | src/aic8800-vendor/aic8800_bsp/aic_bsp_driver.c:118-131 | a timeout fails its caller and crashes the manager; it unlinks unless the confirm already did |
| `CmdMgr.ConfirmedYetTimedOut` | src/aic8800-vendor/aic8800_bsp/aic_bsp_driver.c:118-131 | three events after which a confirmed command has failed its caller |
| `CmdMgr.ConfirmedThenWoken` | src/aic8800-vendor/aic8800_bsp/aic_bsp_driver.c:120-134 | the same confirm with the caller woken first: it gets 0 |
| `CmdMgr.AnswersExactly` | src/aic8800-vendor/aic8800_bsp/aic_bsp_driver.c:63-194 | in every run, told from the events: each caller gets -32 or -12 when refused, -110 when it times out, 0 when it is woken after a confirm, whichever is first; the manager has crashed iff somebody timed out |
| `CmdMgr.Manager.Unlink` | src/aic8800-vendor/aic8800_bsp/aic_bsp_driver.c:44-61 | the command is off the list with the others in order, counted down and done; its caller is woken iff it is blocking and waits for nothing more; no other command is touched |
| `CmdMgr.Manager.Queue` | src/aic8800-vendor/aic8800_bsp/aic_bsp_driver.c:63-116 | the error, the new list, and that an accepted command is pushed at once |
| `CmdMgr.Manager.Take` | src/aic8800-vendor/aic8800_bsp/aic_bsp_driver.c:168-184 | the command that takes a confirm is always completed with result 0, gets at most 1024 bytes of the reply, and is unlinked alone; the invariant holds again |
| `CmdMgr.Manager.MsgInd` | src/aic8800-vendor/aic8800_bsp/aic_bsp_driver.c:156-194 | the loop finds a listed command of the id that does not reject iff there is one, and then the oldest |
| `CmdMgr.Manager.TimedOut` | src/aic8800-vendor/aic8800_bsp/aic_bsp_driver.c:120-130 | the section after a failed wait |

## Left out

- Hardware and kernel I/O, clocks, probe, suspend, power state changes and wake locks: a credit read, the time, a firmware callback's verdict and what an unlocked emptiness test sees are parameters.
- Allocation failures and a bus that goes down, including the early returns of `aicwf_sdio_tx_process`; the RX configuration branch that returns without decrementing `rx_cnt` is one of them.
- The `CONFIG_SDIO_ADMA` and USB variants, and the RX walk over an `skb` instead of a preallocated buffer.
- RxWalk.RxBuffer.Process: bytes of a record beyond the end of the buffer are clipped, because the model has no memory behind the buffer to read; `RxWalk.InsideExactly` says when there are none.
- TxPath.CommandsConserved: a submission is one step; the program fills the shared command buffer before it takes the semaphore and reads the length of a transfer before it does, so a command could also be torn.
- TxPath.CreditsNeverOverspent: a credit read returns any number, as the flow-control register may; the batch limit is a constant of at least 1.
- TxAggregate.TxBuffer.Aggregate: requires room for the frame, which the program does not check; `TxAggregate.CapacityExact` says which batch limit and frame length guarantee it. The buffer is handed over as a value, not as DMA memory.
- Md5.Context.Update: requires the length limit under which the loop test does not wrap; beyond it the loop never ends (`Md5.LoopEndsExactly`) and reads behind its input.
- Md5.DigestOfPieces: requires the same limit of each piece, at the place where it comes.
- PppoeRelay.Skb.InsertRelay: the 40-byte stack buffer is followed by some other memory, given as a parameter; tag lists are well-formed, as a malformed length walks out of the packet.
- The other protocol arms of `nat25_db_handle` and the PPPoE mode without relay tags: address arithmetic on other headers, no further invariant.
- NatDb.Bridge.Insert: the allocation succeeds; without memory the call changes nothing.
- HciReassembly.Fill: the buffer has exactly the length asked for; a kernel that rounds allocations up accepts slightly larger frames.
- HciReassembly.HciDev.Reassemble: the slot index is the packet type minus 1, as its only caller passes it; delivery appends to a log instead of calling the stack.
- BtRing.Ring.ReadBytes: signals, copy faults and a second reader that empties the queue between wait and dequeue are not modelled.
- TcpAck.AckFilter.FilterSend: calls on the table are one after the other; the interleaving result is `TcpAck.MessagesConserved`. The TCP option walk and the window-size downgrade of the type are inputs or dropped, because the handler ignores the type. Messages carry distinct identities where the program compares addresses.
- TcpAck.AckFilter.Match: seqlock retries are not modelled.
- CmdMgr.Manager.Queue: killed waits and `cmd_mgr_drain` are not modelled; `tkn` is an unbounded number, since nothing reads the 32-bit one.
- CmdMgr.Manager.MsgInd: the final callback with no command is outside the manager and is dropped.
- Tables, firmware loading, RF tests, sysfs, netlink and printing have no property of their own.
