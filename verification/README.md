# Bluetooth gateway: a verified model

The gateway relays data between Bluetooth nodes and a cloud client. This project models its
flow control in Dafny and proves what any interleaving of its callbacks guarantees:

- **Uplink** (`lib/uplink.c`, `lib/bt/uplink.c`): fragments of any size become fixed-size blocks
  that go to the cloud one at a time, numbered, the final one marked.
- **Downlink** (`lib/downlink.c`, `lib/block.c`, `lib/bt/downlink.c`): cloud blocks wait in a slab
  and leave in pieces of the packet size; the pump parks when there is nothing to send and is
  woken by the next block.
- **Server certificate exchange** (`lib/cert.c`, `lib/bt/cert.c`): a chunked transfer of a
  certificate that can be replaced while it is under way, and is then sent again.
- **CCC attribution** (`lib/bt/connect.c`): which client characteristic configuration descriptor
  belongs to which characteristic.

## How it is built

Each stateful C file has a class (`Uplink`, `UplinkNode`, `Slab`, `Downlink`, `DownlinkNode`,
`ServerCert`, `CertContext`, `CertNode`, `NodeInfo`) whose methods follow the C functions. Every
method is proved to take its object's value, `Model()`, to the value a specification function
gives for that entry point. The `...Runs` modules, `UplinkGuarantees` and `Pool` then prove
properties of all runs of these functions; so do `PumpFaults` and `PumpBlocks` for the downlink
pump under failures, `PumpPool` for any number of pumps on one slab, with `Holdings` counting
blocks, and `CertMixing` for transfers over a buffer that is not the installed certificate. The packing and draining loops are not specified by
other loops: `UplinkSpec.Fill` divides the whole stream at once, and the lemmas about
`DownlinkSpec.Take` relate a drain to the bytes due.

The surroundings are parameters of the entry points: how many allocations succeed (`mallocs`),
whether the cloud client or the Bluetooth stack accepts (`sendOk`, `gattOk`), the connection's MTU at
the moment, which is 0 when it is gone (`Link`), whether a certificate parses. Each entry point is one atomic step, the cloud client reports exactly once on
each accepted block and not from inside the call that sends it, and `CONFIG_POUCH_GATEWAY_CLOUD`
is set. The packetizer is not part of this model; it is taken to ask the fill callback once for
each packet with room for at least one byte, to pass the bytes on, and to report an empty payload
exactly for a packet without bytes that is not the last.

## What is false of the code, and exactly when

- Success without a last mark: an upload that an allocation failure cut short can succeed without
  any block having been marked last. The mark is there exactly if something was still unsent when
  the uplink was closed (`ScheduleIndependence`, `FlagCanBeMissing`).
- A closed uplink that never ends: one close before the first byte, as on an early disconnect
  (`EndedWhenQuiet`, `StoppedBeforeFirstByte`).
- A second close without an uplink: exactly if writing the last fragment already ended the uplink,
  or if a packet comes without one (`UplinkNodeRuns.FaultExactly`).
- A connection given up over an empty block: exactly if the block is not the last and wakes a
  parked pump (`EmptyBlockWhileParked`).
- Two writes at once: only after the cloud session ends in an error (`NeverTwoWrites`), and then
  exactly if a write was outstanding, no block was current and the kick's write is accepted
  (`ErrorEnd`).
- A freed downlink used again: exactly if an error end meets a complete downlink, or if a block, an
  error end or the response to a write comes after an event that freed it (`PumpFaults.FaultExactly`;
  which events free it is `FreedExactly`). Without any error end that takes an empty slab: exactly if no
  block was free for a block that came while a write was outstanding, and the response then arrives
  (`FaultWithoutErrorEnd`, `ExhaustionThenResponse`). Two writes at once lead there too
  (`TwoWritesThenFault`).
- A downlink that did not start: the uplink session is opened all the same, and its first block or
  error end looks at the NULL downlink, exactly (`MissingDownlink`).
- Blocks that never return to the slab. An abort frees only a complete downlink, only a further block
  frees another one, and a disconnect frees only the scratch buffer (lib/bt/connect.c:222-226). So
  with no response due, everything has been given back if and only if the downlink is not an
  aborted, incomplete one that still holds blocks (`AllGivenBack`). Exactly two kinds of steps leave
  it so with no further block to come (`StrandsExactly`): giving up such a downlink when its last
  block is here or its session has ended, and the end of the session of one given up before, in an
  error unless the kick goes out or empties it. Nothing leads back but an error end that kicks
  (`StrandedStays`, `StrandedForever`); `ErrorEndLeavesBlock` is an input. For any number of pumps on
  a slab, `LossExactly` says which steps lose how many blocks, and `SlabIsBack` that the slab is whole
  at rest if and only if no pump left any.
- Blocks dropped by a close: exactly if the queue is not empty, which takes blocks behind the last
  one (`DropsExactly`, `BlocksBehindTheLast`).
- A certificate of mixed versions: over one transfer, exactly if some write finds bytes in the
  buffer, at its offset, that are not those of the installed certificate (`MixedExactly`). That
  takes a download that does not parse and differs from the installed bytes (`RefreshHarmless`,
  `ParseFailureMixes`). A transfer overtaken by an install is sent again unless 2^32 were installed
  (`NewestExactly`).
- An exchange that stalls: exactly if a transfer starts while there is no certificate; no later
  event moves it (`EmptyStoreStalls`, `StallsExactly`, `StalledForever`).
- A CCC descriptor not found: exactly the one right behind the lowest value handle when all five
  characteristics are there (`StartReaches`, `CccAttribution`). The comment in the code says that
  descriptors start two handles after the value's declaration; the code starts two after the value.
- The wrong CCC descriptor recorded: exactly if an unknown characteristic with one follows before
  the next known characteristic (`CccAttribution`, `UnknownOverwrites`).

## Model

| member | source | states |
|---|---|---|
| `Uplink.Uplink.Open` | lib/uplink.c:226-267 | opening fails exactly when an allocation or the session start does; otherwise the uplink is empty, open and idle |
| `Uplink.Uplink.SubmitBlock` | lib/uplink.c:171-176 | the write block goes behind the queue and there is no write block afterwards |
| `Uplink.Uplink.EnsureRoom` | lib/uplink.c:185-198 | after it there is room for a byte, or memory is exhausted; either way the packing of the rest comes out the same |
| `Uplink.Uplink.CopyIntoWriteBlock` | lib/uplink.c:200-206 | copying at least one byte in place leaves the outcome of the packing unchanged |
| `Uplink.Uplink.Pack` | lib/uplink.c:183-207 | the loop yields the division of write block and payload as one stream, and with too few allocations exactly the full blocks that fit |
| `Uplink.Uplink.Write` | lib/uplink.c:178-219 | -ENOMEM exactly when an allocation was missing, and then nothing is sent; otherwise the close or one send attempt follows |
| `Uplink.Uplink.ProcessUplink` | lib/uplink.c:96-155 | one send attempt: nothing while sending, success at the end of a closed queue, an empty block skipped, a block sent under the next 32-bit index or the end callback with a local error |
| `Uplink.Uplink.DropBlock` | lib/uplink.c:82-83 | the block in flight is freed and the uplink is idle |
| `Uplink.Uplink.CleanupUplink` | lib/uplink.c:49-65 | everything the uplink allocated is freed, queue included |
| `Uplink.Uplink.Close` | lib/uplink.c:269-279 | the first close queues the write block, every close makes a send attempt |
| `Uplink.Uplink.BlockUploadCallback` | lib/uplink.c:67-94 | a report frees the block in flight, then the next send attempt or the end callback with a cloud error |
| `Base.SplitIsUnique` | lib/uplink.c:183-207 | the canonical division of a stream is the only one into full blocks followed by at most one shorter, non-empty block |
| `UplinkSpec.Fill` | lib/uplink.c:183-207 | a payload is either taken whole or a prefix of it is, and the write block never exceeds the block size |
| `UplinkRuns.PackedBytes` | lib/uplink.c:183-207 | packing keeps the bytes in order, queues full blocks only, and leaves no write block exactly when memory ran out |
| `UplinkRuns.RunKeeps` | lib/uplink.c:67-279 | the invariant of every run: framing, division of the accepted bytes, one block in flight, progress |
| `UplinkGuarantees.ScheduleIndependence` | lib/uplink.c:96-219 | the frames sent are a prefix of the canonical division of the accepted bytes, all of it at success; the last block is held back until the close; the last flag is on the final block exactly if something was unsent at the close |
| `UplinkGuarantees.SameStreamSameFrames` | lib/uplink.c:96-219 | two successful uploads of the same bytes send the same frames, whatever the fragments and the timing |
| `UplinkGuarantees.FlagCanBeMissing` | lib/uplink.c:193-197 | a run with an allocation failure and the disconnect that follows it, which succeeds although no block was marked last |
| `UplinkGuarantees.Conservation` | lib/uplink.c:157-207 | bytes sent, queued and in the write block are the bytes accepted, in order, with allocations failing anywhere; blocks submitted before the close are full |
| `UplinkGuarantees.StopAndWait` | lib/uplink.c:76-155 | SENDING is set exactly while a block is in flight, at most one is; the index counts the blocks sent; a queue waits only for a report or after -ENOMEM |
| `UplinkGuarantees.EndsOnce` | lib/uplink.c:49-119 | the end callback is called once, exactly when the uplink is freed, and never while a report is due |
| `UplinkGuarantees.EndCause` | lib/uplink.c:85-154 | a cloud error ends it exactly at a failed report, a local error exactly at a refused offer of a block, success exactly when a closed uplink has nothing left |
| `UplinkGuarantees.EndsOnLastReport` | lib/uplink.c:67-119 | with p blocks unsent or in flight after the close, success comes with exactly the p-th report |
| `UplinkGuarantees.EndedWhenQuiet` | lib/uplink.c:131-139 | with all reports in, a closed uplink has ended if and only if a byte was accepted or it was closed twice |
| `UplinkGuarantees.SecondClose` | lib/uplink.c:209-216 | closing again after the last write sends nothing, and changes something only for an empty stream, which it ends |
| `UplinkNode.UplinkNode.Start` | lib/bt/uplink.c:132-144 | a node starts with an open uplink, or, exactly if that does not open, finishes the connection |
| `UplinkNode.UplinkNode.HandleUplinkPayload` | lib/bt/uplink.c:24-61 | a packet is written and, if last, the uplink is closed again and let go of; reading goes on exactly after a packet that was decoded, written whole and not the last |
| `UplinkNode.UplinkNode.SubscriptionTerminated` | lib/bt/uplink.c:93-114 | an open uplink is closed and let go of and the connection finished; without one nothing changes |
| `UplinkNode.UplinkNode.UplinkEndCb` | lib/bt/uplink.c:119-130 | the handle is cleared, and the connection finished unless the upload succeeded |
| `UplinkNode.UplinkNode.UplinkCleanup` | lib/bt/uplink.c:179-188 | an open uplink is closed and let go of |
| `UplinkNode.UplinkNode.BlockDelivered` | lib/bt/uplink.c:119-130 | a report reaches the uplink, and its end reaches the node |
| `UplinkNodeRuns.HandleIsLive` | lib/bt/uplink.c:44-58 | over every run a handle that is not NULL denotes a live uplink never closed, and an uplink let go of is closed or gone |
| `UplinkNodeRuns.FaultExactly` | lib/bt/uplink.c:52-58 | exactly which packets pass a NULL uplink on |
| `UplinkNodeRuns.LetsGo` | lib/bt/uplink.c:93-114 | when the subscription ends or the connection is gone, a set handle is closed once and cleared, with one finish for the subscription and one more exactly if the close's own block is refused; without a handle nothing happens |
| `UplinkNodeRuns.FinishesExactly` | lib/bt/uplink.c:24-130 | over every run, the connection is finished once for each packet not decoded, each packet without memory and each subscription that ends with the uplink open, and once more exactly if the uplink ended in an error |
| `UplinkNodeRuns.CleanRunDelivers` | lib/bt/uplink.c:44-61 | without failures no NULL uplink is used, and after the last fragment and all reports success was announced once, for an empty pouch too, with exactly the canonical frames at the cloud |
| `UplinkNodeRuns.CleanRunStaysConnected` | lib/bt/uplink.c:119-130 | a clean upload never finishes the connection, which the downlink still needs, unless a packet cannot be decoded or the subscription ends |
| `UplinkNodeRuns.EmptyDisconnectNeverEnds` | lib/uplink.c:131-139 | after a single close of an empty stream nothing changes the uplink any more |
| `UplinkNodeRuns.StoppedBeforeFirstByte` | lib/bt/uplink.c:179-188 | a disconnect before the first byte leaves an uplink that is never ended nor freed |
| `Slab.Slab.constructor` | lib/block.c:35 | every block of the pool is free |
| `Slab.Slab.BlockAlloc` | lib/block.c:37-49 | the free block taken is reset and no other changes; none exactly if the slab is empty |
| `Slab.Slab.BlockFree` | lib/block.c:51-54 | the block is back in front of the free list |
| `Slab.Slab.BlockMarkLast` | lib/block.c:61-64 | only the mark of that block changes |
| `Slab.Slab.BlockAppend` | lib/block.c:71-75 | the bytes are behind those in use and no other block changes |
| `Slab.Slab.BlockGet` | lib/block.c:77-87 | -EINVAL exactly past the buffer; otherwise exactly the bytes asked for are copied |
| `Downlink.Downlink.Open` | lib/downlink.c:116-138 | opening fails exactly when its malloc does; otherwise the downlink holds nothing and its client waits |
| `Downlink.Downlink.FlushBlockQueue` | lib/downlink.c:40-49 | every queued block is given back |
| `Downlink.Downlink.BlockCb` | lib/downlink.c:51-89 | exactly after an abort the answer is NACK, exactly without a free block otherwise MEM_ALLOC, and both times the downlink is flushed and closed; else the block is queued and wakes a waiting client; no block of another owner changes |
| `Downlink.Downlink.Enqueue` | lib/downlink.c:74-80 | a fresh block with exactly the data and the mark is behind the queue, no other block changes |
| `Downlink.Downlink.FlushAndClose` | lib/downlink.c:58-72 | every block held is given back, queue first, and the downlink freed |
| `Downlink.Downlink.NextBlock` | lib/downlink.c:156-159 | the first queued block becomes current, and what is held stays the same |
| `Downlink.Downlink.FinishBlock` | lib/downlink.c:192-194 | the current block is given back and the next one becomes current |
| `Downlink.Downlink.Deliver` | lib/downlink.c:179-201 | one turn of the loop: what it copies and gives back, followed by the rest of the drain, is the drain it is part of |
| `Downlink.Downlink.Settle` | lib/downlink.c:158-205 | how a drain is reported: last mark, full, end of an abort, or dry with the client left waiting if it got nothing |
| `Downlink.Downlink.CopyOut` | lib/downlink.c:179-186 | the smaller of the room and the rest of the block is copied; the unchecked block_get never fails |
| `Downlink.Downlink.Drain` | lib/downlink.c:154-202 | the loop terminates for any blocks, empty ones included, and yields exactly the specified drain, bytes and blocks given back |
| `Downlink.Downlink.GetData` | lib/downlink.c:140-206 | result code, bytes, last mark, flags and freed blocks are those of the specified read, -ENODATA exactly of a complete downlink and -EAGAIN exactly when blocks run out without an end in sight; nothing else of the buffer is written |
| `Downlink.Downlink.Close` | lib/downlink.c:213-221 | the current block is given back; queued ones are not |
| `Downlink.Downlink.Abort` | lib/downlink.c:223-236 | the abort is noted, and a complete downlink closed |
| `Downlink.Downlink.OthersUnaffected` | lib/block.c:35-54 | a downlink frees only its own blocks and writes only to free ones, so another downlink on the slab keeps its blocks and their contents |
| `DownlinkSpec.TakeConserves` | lib/downlink.c:154-202 | a drain loses and reorders no byte, and each block is either still held or given back |
| `DownlinkSpec.TakeIsGreedy` | lib/downlink.c:154-205 | a drain yields exactly the first min(capacity, available) bytes up to the last block, and stops short only there or out of blocks |
| `DownlinkSpec.TakeMarksExactly` | lib/downlink.c:154-202 | for any blocks, the last mark comes exactly if all bytes due fit and there is room left when the drain gets to the last block |
| `DownlinkSpec.FinishesExactly` | lib/downlink.c:140-206 | a read completes the downlink exactly if there is room for all that is left up to the last block or, after an abort, the end |
| `DownlinkSpec.CodeExactly` | lib/downlink.c:147-205 | of every read: -ENODATA exactly of a complete downlink, -EAGAIN exactly of one not aborted whose blocks, none of them the last, run out first, 0 otherwise |
| `DownlinkSpec.StatusExactly` | lib/downlink.c:58-88 | NACK exactly after an abort, MEM_ALLOC exactly without a free block otherwise, OK in the rest |
| `DownlinkSpec.FedExactly` | lib/downlink.c:58-88 | a block wakes the client exactly if it is accepted, none is current and the client waits; the flag then goes and otherwise stays; the downlink is freed exactly if the block is refused |
| `DownlinkSpec.ReadOutcome` | lib/downlink.c:158-176 | a read leaves the client waiting exactly if it waited or got nothing without an end, and completes the downlink exactly with the last mark |
| `DownlinkSpec.TakeMarksAtOnce` | lib/downlink.c:188-200 | with non-empty blocks the last mark comes exactly with the last byte due |
| `DownlinkRuns.StreamRefinement` | lib/downlink.c:51-206 | over every interleaving of blocks, reads of any size and an abort, bytes delivered and held are the bytes received; the last mark is reported once exactly when the downlink is complete |
| `DownlinkRuns.MarkedByTheLastBlock` | lib/downlink.c:188-200 | without an abort the mark is reported by exactly the read that uses up the last-marked block |
| `DownlinkRuns.ReadIsGreedy` | lib/downlink.c:154-205 | every read takes all that is due and fits; -EAGAIN only with everything taken |
| `DownlinkRuns.AbortDrains` | lib/downlink.c:147-168 | after an abort, reads return every byte held, then the last mark once, then only -ENODATA, and the mark comes within one more read than there are bytes |
| `DownlinkNode.DownlinkNode.Start` | lib/bt/downlink.c:147-175 | no pump exactly without a handle, with too small an MTU or when an allocation fails; otherwise it starts parked with nothing written |
| `DownlinkNode.DownlinkNode.WriteDownlinkCharacteristic` | lib/bt/downlink.c:27-93 | one packet is written, or none for a small MTU, an empty payload, an exhausted downlink or a refused write |
| `DownlinkNode.DownlinkNode.DownlinkDataAvailable` | lib/bt/downlink.c:131-145 | a write that does not go out ends the connection |
| `DownlinkNode.DownlinkNode.WriteResponseCb` | lib/bt/downlink.c:95-129 | a response leads to the next write, to parking, to the finish of a complete downlink, or to an abort |
| `DownlinkNode.DownlinkNode.CloudBlock` | lib/downlink.c:51-89 | a block reaches the downlink, and a parked pump writes at once; a freed downlink is a fault |
| `DownlinkNode.DownlinkNode.CloudEnd` | lib/downlink.c:91-114 | an error end aborts the downlink and kicks the pump when no block is current; a freed downlink is a fault |
| `PumpSpec.WriteOutcome` | lib/bt/downlink.c:48-93 | a write attempt goes out exactly if there is a packet and the stack takes it, parks exactly if nothing is held and no end in sight, and uses the downlink up exactly if all that is left fits |
| `PumpRuns.NoLostWakeup` | lib/bt/downlink.c:48-145 | in every state of a run without failures exactly one holds: one write is outstanding, the pump is parked with nothing held, or the transfer is over |
| `PumpRuns.StreamRefinement` | lib/bt/downlink.c:27-93 | bytes written and held are the bytes received, in order; the final packet and no other is marked last; at the end all is written |
| `PumpRuns.EmptyBlockWhileParked` | lib/bt/downlink.c:131-145 | a block that wakes a parked pump keeps it going if and only if it is not empty or is the last |
| `PumpRuns.FinishBound` | lib/bt/downlink.c:95-129 | after the last block, for blocks of any sizes, exactly max(ceil(r/c), a/c + 1) more writes follow for r bytes due, a of them in front of the last block, at capacity c, then one finish |
| `PumpRuns.WritesOfNonEmpty` | lib/bt/downlink.c:95-129 | if no block is empty that is ceil(r/c) |
| `PumpFaults.NeverTwoWrites` | lib/bt/downlink.c:48-145 | whatever fails, at most one write is outstanding unless the session ends in an error |
| `PumpFaults.FreedExactly` | lib/downlink.c:58-72 | exactly which events free the downlink: a block after an abort or without a free slab block, a response or an error end of a complete one, and a final packet that is refused |
| `PumpFaults.FaultExactly` | lib/bt/downlink.c:95-145 | over every sequence of events, a freed downlink is used if and only if a block, an error end or a response comes after an event that freed it, or an error end meets a complete one |
| `PumpFaults.FaultWithoutErrorEnd` | lib/downlink.c:65-72 | without an error end that happens if and only if the slab was empty for a block while a write was outstanding, and the response came |
| `PumpFaults.ExhaustionThenResponse` | lib/bt/downlink.c:110 | the block without a free slab block frees the downlink and is no fault, the response after it is |
| `PumpFaults.ErrorEnd` | lib/downlink.c:105-112 | for any MTU and stack answer, exactly when an error end makes another write or two outstanding, looks at a freed downlink, or frees one |
| `PumpFaults.TwoWritesThenFault` | lib/downlink.c:105-112 | an error end with nothing held and a write outstanding makes the second response find the downlink freed |
| `PumpFaults.MissingDownlink` | lib/bt/uplink.c:136-138 | with a downlink that did not start, NULL is used if and only if the session delivers a block or ends in an error |
| `PumpFaults.FinishedExactly` | lib/bt/downlink.c:95-145 | exactly which events finish the connection, each once, and which leave the downlink aborted |
| `PumpBlocks.AllGivenBack` | lib/downlink.c:213-236 | over every run, whatever fails, with an MTU of its own for every event and any end of the session: with no response due, the blocks given back are those taken if and only if the downlink is not an aborted, incomplete one holding blocks |
| `PumpBlocks.StrandsExactly` | lib/downlink.c:91-114 | exactly which steps leave blocks behind: giving up an incomplete downlink that gets no further block, and the end of the session of one given up before, unless it kicks a write that goes out or empties it |
| `PumpBlocks.StrandedStays` | lib/downlink.c:223-236 | exactly a further block, or an error end without a current block and with an MTU for a write, changes such a downlink |
| `PumpBlocks.StrandedForever` | lib/bt/connect.c:222-226 | for the rest of the run it and the account of its blocks stay as they are, unless an error end wakes the pump |
| `PumpBlocks.LeftBehindExactly` | lib/downlink.c:223-236 | with no response due and no further block to come, blocks have stayed behind if and only if one of these steps left them and only responses came since |
| `PumpBlocks.ErrorEndLeavesBlock` | lib/downlink.c:105-112 | an error end in the middle of a block and a failing response leave the block behind |
| `Pool.EachBlockOnce` | lib/block.c:35-54 | over every run of any number of downlinks each slab block is in exactly one place, and all together are as many as the slab has |
| `Pool.SlabIsWhole` | lib/downlink.c:40-72 | if nothing follows a last block, free and held blocks are always the whole slab; what is held for good is in `PumpPool.LossExactly` |
| `Pool.ClosingReturnsAll` | lib/downlink.c:213-236 | each way a downlink is freed (complete, aborted before, out of blocks) gives back exactly the blocks it held; an abort that does not free it is in `PumpPool.LossExactly` |
| `Pool.DropsExactly` | lib/downlink.c:213-221 | for any use of a downlink, blocks are dropped exactly when a close finds the queue not empty, and as many as it holds |
| `Pool.BlocksBehindTheLast` | lib/downlink.c:188-200 | with two blocks behind the last one a close gives one back and loses the other |
| `PumpPool.EachBlockOnce` | lib/block.c:35-54 | over every run of any number of pumps, whatever fails, each slab block is free or held by one pump |
| `PumpPool.LossExactly` | lib/downlink.c:223-236 | over every such run, exactly which steps lose blocks of the slab and how many, and which alone can win them back |
| `PumpPool.SlabIsBack` | lib/downlink.c:213-236 | with every pump at rest, the blocks missing are those left behind: the slab is whole if and only if no pump left any |
| `PumpPool.StrandedNeverFree` | lib/downlink.c:223-236 | whatever the other pumps do, no block left behind is ever free again |
| `Cert.ServerCert.OnConnected` | lib/cert.c:184-200 | a download replaces the bytes of the buffer it covers; length, serial number and id change exactly if it parses |
| `Cert.ServerCert.Update` | lib/cert.c:108-130 | length, id and serial number change exactly if the certificate parses |
| `Cert.ServerCert.GetSerial` | lib/cert.c:167-177 | the beginning of the serial number, as much as fits, and nothing else of the buffer is written |
| `CertSpec.LastInstalled` | lib/cert.c:108-130 | after any sequence of refreshes, length, serial number and id are those of the last download that parsed |
| `CertSpec.NoneInstalled` | lib/cert.c:108-130 | and all three stay as long as none does |
| `Cert.CertContext.constructor` | lib/cert.c:92-101 | a transfer starts at offset 0 of the current id |
| `Cert.CertContext.IsNewest` | lib/cert.c:103-106 | the ids of transfer and store agree |
| `Cert.CertContext.IsComplete` | lib/cert.c:132-135 | the offset has reached the current length |
| `Cert.CertContext.GetData` | lib/cert.c:137-165 | the next bytes of the buffer as it is now, as many as fit; -ENODATA exactly past the length |
| `CertSpec.GetData` | lib/cert.c:137-165 | -ENODATA exactly when the transfer is complete; a chunk is marked last exactly if it completes it, and any other fills the room |
| `CertNode.CertNode.WriteServerCertCharacteristic` | lib/bt/cert.c:200-241 | one chunk is written and the offset advanced, or nothing happens, or the exchange is given up |
| `CertNode.CertNode.WriteStart` | lib/bt/cert.c:300-326 | a new transfer starts with its first chunk, whose result is ignored |
| `CertNode.CertNode.WriteResponseCb` | lib/bt/cert.c:243-277 | a response leads to the next chunk, to a new transfer, or on to the device certificate |
| `CertNode.CertNode.ServerCertCleanup` | lib/bt/cert.c:31-52 | scratch buffer, transfer context and packetizer are gone |
| `CertNode.CertNode.Reconnected` | lib/cert.c:184-200 | a refresh changes the store under a transfer and nothing of the transfer itself |
| `CertRuns.SingleVersion` | lib/bt/cert.c:243-277 | whenever the exchange moves on, whatever writes and allocations failed, the chunks sent since the last start are exactly the certificate installed then |
| `CertRuns.NeverGivenUp` | lib/bt/cert.c:200-277 | if nothing fails, one write is outstanding until the exchange moves on, and -ENODATA never ends it |
| `CertRuns.MixedIsResent` | lib/bt/cert.c:251-266 | a finished transfer moves on exactly if nothing was installed since its start, otherwise a new one starts |
| `CertRuns.NewestExactly` | lib/cert.c:103-106 | the id check passes exactly after a multiple of 2^32 installs |
| `CertRuns.RefreshHarmless` | lib/cert.c:184-200 | exactly which refreshes leave the buffer holding the installed certificate |
| `CertRuns.ParseFailureMixes` | lib/cert.c:114-118 | a download that does not parse can make the exchange move on with a mixed certificate |
| `CertMixing.MixedExactly` | lib/cert.c:137-165 | over one transfer, whatever happens to the buffer, the chunks are the installed certificate if and only if every write found the installed bytes at its offset |
| `CertMixing.EmptyStoreStalls` | lib/bt/cert.c:300-326 | a start leaves the exchange under way without a write exactly if there is no certificate and nothing else stops it |
| `CertMixing.StallsExactly` | lib/bt/cert.c:243-277 | an exchange under way gets there exactly by starting over on an empty certificate |
| `CertMixing.StalledForever` | lib/bt/cert.c:300-326 | no later event moves such an exchange |
| `CertRuns.ExchangeTerminates` | lib/bt/cert.c:243-298 | the responses of an exchange are bounded by the installs to come and the bytes left, and transfers start at most once for each install |
| `Discovery.NodeInfo.constructor` | lib/bt/connect.c:199-212 | no handle is known at first |
| `Discovery.NodeInfo.DiscoverCharacteristic` | lib/bt/connect.c:100-114 | the value handle is recorded with its UUID, unknown UUIDs change nothing |
| `Discovery.NodeInfo.CharacteristicsDone` | lib/bt/connect.c:116-134 | not at all unless both uplink and downlink are recorded; otherwise the search starts two behind the smallest recorded value handle |
| `Discovery.NodeInfo.DiscoverDescriptor` | lib/bt/connect.c:49-77 | the descriptor is recorded with the closest lower value handle |
| `DiscoverySpec.Closest` | lib/bt/connect.c:52-66 | the largest value handle below the descriptor, the first of equals; none exactly if there is none below |
| `DiscoverySpec.ClosestIsLastKnown` | lib/bt/connect.c:52-66 | in any well-formed layout the descriptor of a characteristic, known or not, is closest to exactly the last known characteristic up to it |
| `DiscoverySpec.UsableExactly` | lib/bt/connect.c:116-122 | the search for descriptors takes place exactly if the service has an uplink and a downlink characteristic |
| `DiscoverySpec.StartReaches` | lib/bt/connect.c:124-134 | a search reaches every CCC descriptor at or behind a known characteristic but the one right behind the value of the first, when the service has all five |
| `DiscoverySpec.CccAttribution` | lib/bt/connect.c:43-137 | after discovery of any layout: no CCC handle without uplink and downlink; otherwise the last one of unknown characteristics behind a known one exactly if there is one, and if not its own exactly if it has one that is not skipped |
| `DiscoverySpec.UnknownOverwrites` | lib/bt/connect.c:68-71 | a layout in which an unknown characteristic takes over the uplink's CCC handle |

## Left out

- Uplink: blocks in the queue and in flight are held as bytes, since nothing writes to them any more; freeing is followed by a count, so that two owners of one such block are not expressible.
- UplinkNode: the handle of a later connection that reuses the node record is not modelled, so a late end callback of an earlier connection is not seen.
- Uplink.ProcessUplink: the build without cloud, which stops after taking a block, is not modelled.
- Interleaving inside a callback: flags and lists are taken as one step each; the flags' atomic operations are not modelled.
- Slab: the wait of an allocation is one step, which fails exactly if no block is free.
- DownlinkNode: the packetizer's own lifetime and its header are not modelled; the GATT write error of a response is a flag; the MTU may shrink but is taken not to exceed that of the allocation of the scratch buffer, also in CertNode.
- Pool: the count over all downlinks of a slab is proved on values; for two downlink objects `OthersUnaffected` states that a step of one leaves the other as it is.
- CertNode: the reading of the serial number before the exchange and the device certificate after it are one comparison and one bounded append.
- Cert.ServerCert.Update: the bound of a serial number, 20 bytes, is taken from its caller.
- NodeInfo: 16 and 128 bit service discovery, and starting the exchange or the uplink afterwards.
- Scanning, advertising, `main.c`, samples, test scripts, board files and upstream patches: no gateway logic of their own.
