# Verified model of the Brickproof bootloader: UAVCAN transport, CAN driver, boot controller and tools

The repository is firmware for a small CAN node: a bootloader that is itself a UAVCAN v0 node, and an application with a
configuration store. This project models in Dafny

* **libcanard** (`bootloader/modules/libcanard/canard.c`), as a class over one arena of 32-byte blocks that are threaded by
  five kinds of singly linked lists: the free list, the TX queue, the reception states, the buffers of each state, and the
  blocks lent to the application. Methods follow the C functions; their contracts refine operations on logical values
  (payloads as byte sequences, queue and states as sequences), about which the delivery theorems are proved;
* the **bxCAN driver** and the node's **poll loop**: which queued frame reaches which mailbox, and what that means for the
  order of frames on the bus;
* **scalars** at any bit offset, encoded into a buffer and decoded from scattered storage;
* the **bootloader controller**: the search for a valid application, the CRC it rests on, and all interleavings of the
  mutex-protected sections of any number of threads;
* the **descriptor tool** (`tools/make_boot_descriptor.py`), and when the bootloader accepts what it writes;
* **dynamic node-ID allocation**, the **bit-timing search** and the **configuration store**.

## How it is organized

| files | contents |
|---|---|
| `Frames`, `Polynomials`, `TransferCrc`, `Bits` | identifiers and arbitration, CRCs as remainders, transfer CRC, bit copying |
| `Reception`, `Transmission` | the logical value of an instance, and what reception, cleanup and transmission do to it |
| `Pool`, `Contents`, `Steps`, `QueueSteps`, `Conservation` | the arena, its lists and its invariant; what each pool step changes and keeps |
| `Canard`, `History` | the class `CanardInstance`, and what the application does in its callback; sequences of calls |
| `Delivery`, `HalfReceived`, `Upkeep`, `Isolation` | round trips and streams on one descriptor; transfers that meet another one; cleanups in between; interleavings of many |
| `Bus`, `BxCan`, `NodeLoop`, `Sending`, `EndToEnd` | queue, mailboxes and bus; driver and loop; consecutive calls; from sender to receiver |
| `Scalars`, `Decoding` | encoding and decoding |
| `Crc64`, `AppImage`, `Bootloader`, `DescriptorTool` | image CRC, descriptor, controller, tool |
| `NodeAllocation`, `Timings`, `PoolCrc`, `ConfigStore` | the other components |

`dafny verify dfyconfig.toml` checks everything.

## Assumptions

* Blocks have 32 bytes and pointers 4, so that a state's head holds 6 bytes and a buffer block 28, and the length of a
  stored payload is a 10-bit counter.
* `should_accept` is a fixed function of data type, transfer type and source. `on_reception` appends to a log what the
  application can read through the transfer's pointers, may release the payload, and may then send messages, requests and
  responses; what it does is an input of each call.
* Assertions in the C code are compiled out where the model says what happens without them. The frames that would trip one
  (`Reception.Trips`) are: a single-frame transfer over half-received blocks, an end frame when the last block is exactly
  full, and bytes beyond the 10-bit counter. Streams that conforming senders produce are proved free of them.
* Time does not run backwards. Frames arrive with positive timestamps, and a transfer's frames arrive within 2 s of the first
  one. Between transfers any time may pass.
* Reading uninitialized memory, what hardware and backends answer, and which pending mailbox wins are arbitrary.
* Every writing call of the configuration storage answers 0 or a negative number, as `IStorageBackend` is used.

## Where the code differs from what one might expect

* A round trip works up to 1027 bytes, not 1023: the last frame's bytes never enter the 10-bit counter
  (`Delivery.RoundTripLimit`).
* After one lost transfer a single-frame transfer is delivered but leaves the expected ID one behind, so that a multi-frame
  transfer right after it is ignored (`Delivery.LagsAfterLoss`). Unless the state is in the middle of a transfer with the
  same ID, a multi-frame transfer is lost exactly if its ID is one ahead of the one expected and the state is in use and no
  older than 2 s (`Delivery.MultiFrameDeliveredIff`).
* A start frame with the ID that a state is in the middle of does not start over: the CRC does, but not the payload. After an
  even number of frames the new payload is appended to the stored one, and passes the CRC check
  (`HalfReceived.TransferAppended`, `HalfReceived.MixedDelivery`); after an odd number the first frame is lost and the others
  are appended (`HalfReceived.FirstFrameLost`).
* A response to a node ID of 128 + d, which the 8-bit parameter admits, goes out as a request to node d, since bit 7 of the
  destination falls on the bit that marks a request (canard.c:213-215, `Transmission.ServiceIdentifies`).
* The delivered timestamp of a multi-frame transfer is that of its last frame (canard.c:446), while canard.h:248 documents
  the first frame's. The model follows the code.
* The tool treats a descriptor at offset 0 as not found once its size is filled in, and then patches another one if there is
  any; the bootloader rejects the result unless its CRC happens to be 0 (`DescriptorTool.OutputAcceptedIff`,
  `DescriptorTool.LosesTrack`, `DescriptorTool.LostIsRejected`). It never finds a descriptor in the last 32 bytes of an
  image whose length is a multiple of 8 (`DescriptorTool.FirstMatchIs`).
* The timing search accepts some clocks that the bit rate does not divide (`Timings.RateComesOut`).
* `os::config::init` returns 1, 2 or 3 where config.hpp:130 documents 0. The model follows the code.

## Model

| member | source | states |
|---|---|---|
| `CanFrames.DescriptorInjective` | bootloader/modules/libcanard/canard.c:50-52 | two identifiers share a reception state exactly when they agree on data type, transfer type, source and destination; the priority does not matter |
| `CanFrames.BroadcastHeader` | bootloader/modules/libcanard/canard.c:170-172 | an identifier built for a message reads back as the priority, data type and source it was built from |
| `CanFrames.AnonymousHeader` | bootloader/modules/libcanard/canard.c:163-166 | the same for anonymous messages: whatever the discriminator, only the two low bits of the data type and no source are read back |
| `CanFrames.ServiceHeader` | bootloader/modules/libcanard/canard.c:213-215 | the same for service requests and responses, with direction and destination, for every 8-bit destination: of one of 128 or more the low 7 bits are read back, and a request |
| `CanFrames.HeaderInNumbers` | bootloader/modules/libcanard/canard.c:1069-1110 | where the fields of an identifier lie, for every 32-bit word |
| `CanFrames.PriorityIsArbitration` | bootloader/modules/libcanard/canard.c:1015-1053 | on identifiers a controller can send, the comparison used by the TX queue is bus arbitration: the smaller arbitration field of ISO 11898-1 wins |
| `CanFrames.ArbitrationFieldInjective` | bootloader/modules/libcanard/canard.c:1015-1053 | different identifiers (ID, format, RTR) never tie in arbitration |
| `CanFrames.PriorityIsStrictTotalOrder` | bootloader/modules/libcanard/canard.c:1015-1053 | the comparison is irreflexive, transitive and total on such identifiers |
| `CanFrames.PriorityInNumbers` | bootloader/modules/libcanard/canard.c:1015-1053 | who wins, in identifiers: the smaller within a format, the smaller 11-bit part across formats and else the base format, and a data frame against the remote frame of the same identifier |
| `TransferCrc.AddConcat` | bootloader/modules/libcanard/canard.c:1518-1525 | the transfer CRC of a payload cut into frames is that of the whole payload |
| `TransferCrc.CrcAddByte` | bootloader/modules/libcanard/canard.c:1492-1507 | the bit loop computes CRC-16-CCITT of one byte |
| `TransferCrc.CrcAdd` | bootloader/modules/libcanard/canard.c:1518-1525 | the byte loop feeds every byte, in order |
| `TransferCrc.CrcAddSignature` | bootloader/modules/libcanard/canard.c:1509-1516 | the signature enters the CRC byte by byte, least significant first |
| `TransferCrc.LittleEndian` | bootloader/modules/libcanard/canard.c:1509-1516 | in this order, by shifts of the signature |
| `TransferCrc.CrcIsRemainder` | bootloader/modules/libcanard/canard.c:1492-1525 | whatever is fed, the register is the remainder of the polynomial division of the bytes, most significant bit first, and 16 zeros by x^16 + x^12 + x^5 + 1, with the initial register added to the first 16 bits |
| `TransferCrc.CheckValue` | bootloader/modules/libcanard/tests/test_crc.cpp:42-55 | the digits from 1 to 9 give 0x29B1 |
| `TransferCrc.BurstDetected` | bootloader/modules/libcanard/canard.c:1492-1525 | payloads that differ within two bytes in a row have different CRCs |
| `Polynomials.RemainderUnique` | bootloader/modules/libcanard/canard.c:1492-1507 | a division leaves only one remainder, so these laws determine the CRCs |
| `Polynomials.BurstDetected` | bootloader/modules/libcanard/canard.c:1492-1507 | whatever the generator, as long as it is odd: a CRC tells apart messages that differ within as many bits in a row as it is long |
| `Bits.CopyBitArray` | bootloader/modules/libcanard/canard.c:1321-1350 | copies exactly the bits asked for, most significant first, between any two alignments, changes no other bit, and terminates |
| `Bits.BitsCopiedUnique` | bootloader/modules/libcanard/canard.c:1321-1350 | that description determines every byte of the result |
| `Bits.CopiesCompose` | bootloader/modules/libcanard/canard.c:1321-1350 | adjacent copies make one copy |
| `Bits.StepCopies` | bootloader/modules/libcanard/canard.c:1337-1348 | one iteration with its write mask and two shifts moves exactly its bits |
| `Canard.CanardInstance.constructor` | bootloader/modules/libcanard/canard.c:71-104 | at most 0xFFFF whole blocks of the memory given; all of them free, queue and states empty, no node ID |
| `Canard.CanardInstance.InitPoolAllocator` | bootloader/modules/libcanard/canard.c:1530-1547 | threads all blocks into the free list |
| `Canard.CanardInstance.AllocateBlock` | bootloader/modules/libcanard/canard.c:1549-1569 | takes the first free block, or fails exactly if there is none; usage and peak are kept, and no other list is touched |
| `Canard.CanardInstance.FreeBlock` | bootloader/modules/libcanard/canard.c:1571-1580 | gives a block that is in no list back to the free list; the usage counter is positive before |
| `Canard.CanardInstance.Conserved` | bootloader/modules/libcanard/canard.c:1530-1580 | between API calls and while the application looks at a transfer, every block is in exactly one list; free blocks, queued frames, states, their buffers and the blocks lent to the application add up to the capacity; usage is capacity minus free blocks, and peak at least usage. Every method keeps the invariant this follows from, also out of memory, on frames that trip an assertion, and with callbacks that release the payload and send |
| `Conservation.BlocksConserved` | bootloader/modules/libcanard/canard.c:1530-1580 | the same count, proved of any arena and its lists |
| `Pool.Attach` | bootloader/modules/libcanard/canard.c:1571-1580 | linking a block that is in no list into any of the five kinds of lists keeps all lists intact and disjoint |
| `Pool.Detach` | bootloader/modules/libcanard/canard.c:1549-1569 | the same for unlinking one |
| `Pool.Lend` | bootloader/modules/libcanard/canard.c:434-447 | the buffer list of a state passes to the transfer as a whole |
| `Canard.CanardInstance.BufferBlockPushBytes` | bootloader/modules/libcanard/canard.c:1212-1305 | refines appending to a byte sequence: fails exactly if the blocks needed exceed what is free, and otherwise the head and blocks hold the old bytes followed by the new ones |
| `Canard.CanardInstance.FillBlocks` | bootloader/modules/libcanard/canard.c:1278-1300 | chains a new block each time the last one is full, and only then |
| `Canard.CanardInstance.StartBlock` | bootloader/modules/libcanard/canard.c:1233-1276 | where writing continues once the head is full, including the spare block taken for an empty middle frame |
| `Canard.CanardInstance.CreateBufferBlock` | bootloader/modules/libcanard/canard.c:1307-1316 | a new last buffer of arbitrary bytes; the bytes stored so far stay |
| `Canard.CanardInstance.ReleaseStatePayload` | bootloader/modules/libcanard/canard.c:1193-1203 | every buffer of the state goes back to the free list, and nothing else changes |
| `Canard.CanardInstance.ReleaseRxTransferPayload` | bootloader/modules/libcanard/canard.c:747-760 | every block lent to the application goes back to the free list, and the transfer describes no payload any more |
| `Canard.CanardInstance.PrepareForNextTransfer` | bootloader/modules/libcanard/canard.c:1058-1064 | the state expects the next ID modulo 32, toggle 0, and holds nothing |
| `Canard.CanardInstance.FindRxState` | bootloader/modules/libcanard/canard.c:1145-1156 | the first state of the descriptor, or none |
| `Canard.CanardInstance.TraverseRxStates` | bootloader/modules/libcanard/canard.c:1114-1140 | the state of the descriptor, created in front of the list if missing; fails exactly if it is missing and no block is free |
| `Canard.CanardInstance.PrependRxState` | bootloader/modules/libcanard/canard.c:1161-1191 | the new state is cleared and first in the list |
| `Canard.CanardInstance.Resolve` | bootloader/modules/libcanard/canard.c:313-337 | restarts a state that is new, older than 2 s, or sees the start of a transfer more than one ID ahead |
| `Canard.CanardInstance.ApplySingle` | bootloader/modules/libcanard/canard.c:339-357 | a single-frame transfer is handed over with the payload of the frame, whatever ID the state expected; only answers to it change the queue |
| `Canard.CanardInstance.ApplyPayload` | bootloader/modules/libcanard/canard.c:369-402 | first and middle frames append their bytes and feed the CRC, or the transfer is given up if the pool runs dry |
| `Canard.CanardInstance.StoreTail` | bootloader/modules/libcanard/canard.c:407-443 | the beginning of the last frame completes head or last block, and the assertion on the offset within the block holds |
| `Canard.CanardInstance.TakeTransfer` | bootloader/modules/libcanard/canard.c:403-456 | head, blocks and tail handed over read as the stored payload followed by the last frame, and they cover it without gap |
| `Canard.CanardInstance.ApplyEnd` | bootloader/modules/libcanard/canard.c:403-471 | the transfer is handed over once if its CRC matches, and in any case all its blocks end up free or taken by the answers to it |
| `Canard.CanardInstance.OnReception` | bootloader/modules/libcanard/canard.c:458-467 | the application sees the gathered payload, may release it itself, and may then send; its calls find free what is not in use, nor still held by the transfer, and move exactly as many blocks as they queue frames |
| `Canard.CanardInstance.ProcessFrame` | bootloader/modules/libcanard/canard.c:313-473 | one frame on one state refines the logical step and the answers to the transfer it completes; no other state changes, and the queue by the answers only |
| `Canard.CanardInstance.HandleRxFrame` | bootloader/modules/libcanard/canard.c:250-474 | the whole call refines the logical reception step and the answers of the callback, for every frame that trips no assertion on a state that is healthy; any frame at all leaves all states of other descriptors as they are and in place, hands over at most one transfer, changes the queue by the answers only, and keeps the pool consistent; requests and responses to other nodes, and all other frames to be ignored, change nothing |
| `Reception.IgnoredIff` | bootloader/modules/libcanard/canard.c:250-271 | a frame is ignored exactly if it is a base, remote or error frame, has no tail byte, or is a request or response whose seven destination bits are not the node ID |
| `Isolation.OnlyWanted` | bootloader/modules/libcanard/canard.c:267-311 | in any history, from no reception states: every transfer handed over is of a kind the application has accepted, and if it is no broadcast it is addressed to this node |
| `Reception.RestartInNumbers` | bootloader/modules/libcanard/canard.c:313-337 | when a frame restarts a state, in microseconds and transfer IDs |
| `Reception.ShortStart` | bootloader/modules/libcanard/canard.c:369-374 | a first frame of up to three bytes is ignored, but for a restart |
| `Reception.OutOfStep` | bootloader/modules/libcanard/canard.c:359-367 | so is a frame with another toggle bit or transfer ID than expected |
| `Reception.OutOfBlocks` | bootloader/modules/libcanard/canard.c:376-402 | a frame for which there are no blocks gives the transfer up: nothing is held, and the next transfer ID is expected |
| `Reception.MissedStart` | bootloader/modules/libcanard/canard.c:330-337 | a later frame that restarts a state makes it wait for the next transfer |
| `Canard.CanardInstance.SendAll` | bootloader/src/l_uavcan.hpp:1053-1063 | any calls that send can be made while a transfer is lent: they queue their frames as far as there are blocks, and touch neither the blocks lent nor any state or its buffers |
| `Transmission.CalledMoves` | bootloader/modules/libcanard/canard.c:860-947 | such calls move blocks from the free list to the queue, and change nothing else |
| `Transmission.AnsweredAsAfterwards` | bootloader/src/l_uavcan.hpp:1053-1063 | calls out of the callback do what the same calls do right after it if and only if the transfer holds no block any more, or there are blocks for all their frames besides those it holds |
| `Reception.HandleHealthy` | bootloader/modules/libcanard/canard.c:250-474 | a frame that trips no assertion keeps all states healthy |
| `Reception.AdvanceHealthy` | bootloader/modules/libcanard/canard.c:313-473 | frames that trip nothing keep a state's length below 1024 and its block count what the length calls for |
| `Delivery.MiddleBlocks` | bootloader/modules/libcanard/canard.c:432-436 | with a first frame of 5 and middle frames of 7 bytes the last block is never exactly full, since 7k - 1 is no multiple of 28; and 37 blocks hold any payload |
| `Delivery.MiddleStep` | bootloader/modules/libcanard/canard.c:386-402 | a middle frame extends what the state holds of the payload |
| `Delivery.LastStep` | bootloader/modules/libcanard/canard.c:403-471 | the last frame completes the payload and passes the CRC check |
| `Delivery.RoundTrip` | bootloader/modules/libcanard/canard.c:860-947 | the frames of any transfer of at most 1027 bytes, fed to a receiver that is ready for it, trip no assertion and make exactly one delivery, with the same payload, type, ID, priority and source; the state then waits for the next ID |
| `Delivery.RoundTripLimit` | bootloader/modules/libcanard/canard.c:1212-1305 | the frames of a transfer trip nothing if and only if the payload has at most 1027 bytes, because what precedes the last frame must fit the 10-bit counter |
| `Delivery.StreamRoundTrip` | bootloader/modules/libcanard/canard.c:250-474 | any stream of transfers of one descriptor with consecutive IDs modulo 32 is delivered unchanged, in order, each transfer once |
| `Delivery.LagsAfterLoss` | bootloader/modules/libcanard/canard.c:339-357 | after the loss of one transfer a single-frame transfer is still delivered, but the state then waits for the ID it has just seen |
| `Delivery.MultiFrameDeliveredIff` | bootloader/modules/libcanard/canard.c:321-367 | exactly when a multi-frame transfer of up to 1027 bytes is delivered unchanged, unless the state is in use and in the middle of one with the same ID: the state is new, or older than 2 s, or the transfer ID is not just one ahead of the one expected; otherwise nothing of it is delivered |
| `HalfReceived.TransferAppended` | bootloader/modules/libcanard/canard.c:291-402 | the remaining case, after an even number of frames: a transfer with the ID that the state is in the middle of does not start over, and what is delivered is the stored payload followed by the new one; an assertion fails exactly if the length counter or the last block is full |
| `HalfReceived.FirstFrameLost` | bootloader/modules/libcanard/canard.c:291-471 | and after an odd number of frames: the first frame is ignored, all others are appended, and the result is delivered exactly if the CRC over them is that of the earlier transfer and the last frame comes within 2 s of the earlier start |
| `HalfReceived.MixedDelivery` | bootloader/modules/libcanard/canard.c:291-402 | an input for which a payload is delivered that nobody sent: two frames of one transfer, then a whole transfer with the same ID, from any slot that is ready |
| `Delivery.SingleFrameDelivered` | bootloader/modules/libcanard/canard.c:339-357 | a single-frame transfer is delivered unchanged in whatever state it arrives |
| `Upkeep.Window` | bootloader/modules/libcanard/canard.c:476-506 | as long as a state is not older than 2 s, what it delivers is what it would deliver without cleanups |
| `Upkeep.StreamUpkeep` | bootloader/src/l_uavcan.hpp:432-486 | a stream of transfers with consecutive IDs is delivered unchanged, in order and once, whenever the node cleans up stale states between any two frames |
| `Isolation.HandleSteps` | bootloader/modules/libcanard/canard.c:250-311 | a relevant frame acts on the state of its own descriptor only, as if there were blocks enough, and trips nothing the state alone would not |
| `Isolation.EnoughFor` | bootloader/modules/libcanard/canard.c:1549-1569 | with 38 blocks per descriptor besides those of the TX queue, no frame ever runs out of blocks |
| `Isolation.NonInterference` | bootloader/modules/libcanard/canard.c:250-474 | in any history of received frames, cleanups and changes of the TX queue, each descriptor gets exactly what its own frames and the cleanups alone bring it, and nothing is tripped if they trip nothing alone; no block is lost |
| `Isolation.AloneOrNot` | bootloader/modules/libcanard/canard.c:250-474 | in particular, leaving out all other descriptors' frames changes neither the deliveries nor the state of a descriptor |
| `Isolation.InterleavedStreams` | bootloader/src/l_uavcan.hpp:443-488 | any interleaving of any number of conforming streams, with cleanups and transmissions at any times, delivers every transfer of every stream, unchanged, once, and in the order of its stream |
| `Reception.UniquePrepend` | bootloader/modules/libcanard/canard.c:1114-1173 | a state is created only if the list holds none with its descriptor, so descriptors stay unique |
| `Transmission.BroadcastIdentifies` | bootloader/modules/libcanard/canard.c:133-188 | a broadcast is accepted exactly for priorities up to 31 and, without a node ID, for up to 7 bytes and data types up to 3; the identifier then reads back as what the caller gave |
| `Transmission.ServiceIdentifies` | bootloader/modules/libcanard/canard.c:190-232 | the same for requests and responses, which need a node ID; a response to 128 + d is read back as a request to d |
| `Transmission.DiscriminatorSent` | bootloader/modules/libcanard/canard.c:144-167 | bits 10 to 23 of an anonymous identifier are bits 1 to 14 of the payload's CRC |
| `Transmission.WireFormat` | bootloader/modules/libcanard/canard.c:860-947 | what is on the wire, in numbers, for every payload: how many frames, all but the last full; tail bytes of 128 for the first, 64 for the last, 32 for every other one, and the transfer ID modulo 32; the CRC in front, least significant byte first; and behind it the payload |
| `Canard.CanardInstance.EnqueueTxFrames` | bootloader/modules/libcanard/canard.c:860-947 | queues the frames of the transfer, or as many as there are blocks for; the result is their number or out of memory |
| `Canard.CanardInstance.FillFrame` | bootloader/modules/libcanard/canard.c:905-936 | a frame holds the CRC first if it is the first, up to 7 bytes, and the tail byte |
| `Canard.CanardInstance.PushTxQueue` | bootloader/modules/libcanard/canard.c:952-996 | links the item behind all frames it does not beat and in front of the first one it beats, and changes nothing else |
| `Canard.CanardInstance.CreateTxItem` | bootloader/modules/libcanard/canard.c:1001-1010 | a cleared item in no list, or none exactly if the pool is empty |
| `Canard.CanardInstance.PeekTxQueue` | bootloader/modules/libcanard/canard.c:234-241 | the frame at the head, if any |
| `Canard.CanardInstance.PopTxQueue` | bootloader/modules/libcanard/canard.c:243-248 | removes the head and frees its block |
| `Canard.CanardInstance.Broadcast` | bootloader/modules/libcanard/canard.c:133-188 | rejects with the right error, or queues the frames planned; the transfer ID advances modulo 32, even out of memory |
| `Canard.CanardInstance.RequestOrRespond` | bootloader/modules/libcanard/canard.c:190-232 | the same, for every 8-bit destination; the transfer ID of a response is left alone |
| `Canard.CanardInstance.SetLocalNodeID` | bootloader/modules/libcanard/canard.c:112-126 | the node ID is set once, to a value from 1 to 127 |
| `Bus.InsertKeeps` | bootloader/modules/libcanard/canard.c:952-996 | the queue stays sorted by bus arbitration, gains exactly the new frame, and keeps frames of one ID first-in-first-out |
| `Bus.InsertAllIsRun` | bootloader/modules/libcanard/canard.c:860-947 | queueing a transfer is a run of such insertions |
| `Bus.TransferWellFormed` | bootloader/modules/libcanard/canard.c:896-937 | all frames of a transfer are extended data frames: no remote, error or standard frames |
| `Canard.CanardInstance.CleanupStaleTransfers` | bootloader/modules/libcanard/canard.c:476-506 | removes exactly the stale states, wherever they are in the list, and frees them with all their buffers |
| `Canard.CanardInstance.RemoveState` | bootloader/modules/libcanard/canard.c:484-499 | unlinks one state, first or inner, and frees it with its buffers |
| `Reception.CleanedKeeps` | bootloader/modules/libcanard/canard.c:476-506 | a state is left if and only if it is no older than 2 s, and no block is lost |
| `Reception.OriginsInOrder` | bootloader/modules/libcanard/canard.c:476-506 | the states left are unchanged and in their old order |
| `Reception.StaleInNumbers` | bootloader/modules/libcanard/canard.c:476-506 | stale means older than 2,000,000 microseconds |
| `BxCan.RegisterRoundTrip` | bootloader/modules/libcanard/drivers/stm32/canard_stm32.c:71-115 | an identifier survives the way through the mailbox register if and only if a controller can send it: no error flag, and 11 bits in the standard format |
| `BxCan.DriverAgrees` | bootloader/modules/libcanard/drivers/stm32/canard_stm32.c:28-66 | the driver, comparing with what it reads back from a mailbox, agrees with the queue's comparison with arguments swapped, and with bus arbitration |
| `BxCan.MailboxRoundTrip` | bootloader/modules/libcanard/drivers/stm32/canard_stm32.c:361-378 | the registers of a mailbox hold the frame it was loaded with if and only if a controller can send its identifier; of a longer base identifier they hold the lower 11 bits |
| `BxCan.MailboxInNumbers` | bootloader/modules/libcanard/drivers/stm32/_internal_bxcan.h:184-190 | where identifier, format, RTR, length and data lie in the registers of a mailbox |
| `BxCan.Controller.Transmit` | bootloader/modules/libcanard/drivers/stm32/canard_stm32.c:281-384 | loads the frame exactly if some mailbox is empty and the frame beats all pending ones, into the first mailbox if all are empty and else the last empty one; other mailboxes are untouched |
| `BxCan.Controller.ProcessErrorStatus` | bootloader/modules/libcanard/drivers/stm32/canard_stm32.c:146-165 | an error is counted once and requests aborts if the controller was set up so or is off the bus |
| `NodeLoop.PollTransmit` | bootloader/src/l_uavcan.hpp:459-475 | the loop moves up to ten frames from the queue into mailboxes by steps of the bus protocol, and stops early only if the queue is empty or its head has to wait |
| `NodeLoop.LoadsAnywhere` | bootloader/src/l_uavcan.hpp:459-475 | what the loop does is a run of the bus protocol from any state with that queue and those mailboxes, so what holds of all runs holds of the driver |
| `Bus.StepKeeps` | bootloader/modules/libcanard/drivers/stm32/canard_stm32.c:298-344 | every queueing, loading, completion, abort and rejection keeps: no two pending mailboxes with the same CAN ID, and sent, pending and queued frames of an ID in the order queued |
| `Bus.RunKeeps` | bootloader/modules/libcanard/drivers/stm32/canard_stm32.c:281-384 | so does every run |
| `Bus.BusOrder` | bootloader/modules/libcanard/drivers/stm32/canard_stm32.c:281-384 | from an idle controller, for any choice of the hardware: the frames of each CAN ID reach the bus as a subsequence of those queued, as a prefix if nothing was lost, and all of them once queue and mailboxes are empty |
| `EndToEnd.EndToEndDelivery` | bootloader/src/l_uavcan.hpp:443-475 | any number of senders, any mailbox scheduling, any interleaving on the bus: the receiver delivers every transfer of every stream, unchanged, once, in order |
| `Sending.CallIsRun` | bootloader/modules/libcanard/canard.c:860-947 | a call that is accepted does to the queue what a run of pushes does, also out of memory |
| `Sending.TrainPushed` | bootloader/modules/libcanard/canard.c:133-232 | calls that pass the returned transfer ID on to the next call queue, of their identifier, exactly the frames of transfers with consecutive IDs, whatever else is queued in between |
| `Transmission.IncrementIsNext` | bootloader/modules/libcanard/canard.c:849-858 | the transfer ID a call returns is the one the receiver expects next |
| `EndToEnd.TrainIsStream` | bootloader/modules/libcanard/canard.c:133-232 | such frames are a stream that the receiving theorems speak of |
| `EndToEnd.CallsToCallbacks` | bootloader/src/l_uavcan.hpp:443-488 | from calls to callbacks: what any number of applications pass to consecutive calls is delivered by the receiver unchanged, once and in order, if the senders lose nothing |
| `History.RunHistory` | bootloader/modules/libcanard/canard.c:250-506 | any calls of the instance, one after the other, take the logical node through the history that they tell: the frames and cleanups given, and the queue that each call that sends, each answered transfer and each frame taken off leaves; as long as no frame trips an assertion |
| `History.EffectIsRun` | bootloader/modules/libcanard/canard.c:250-506 | each call does to the logical node what the incidents it stands for do, which is all that the theorems about histories rest on |
| `History.TransmittedOccurs` | bootloader/modules/libcanard/canard.c:860-947 | queueing takes from the free list the blocks it adds to the queue, out of memory or not |
| `History.AnsweredOccurs` | bootloader/modules/libcanard/canard.c:860-947 | answers out of the callback take from the free list the blocks they add to the queue; the blocks lent meanwhile are free afterwards |
| `History.ReceiveStreams` | bootloader/src/l_uavcan.hpp:443-488 | the instance itself, given frames that interleave conforming streams, with sends, cleanups, transmissions and answers out of the callback in between, hands its application every transfer of every stream, unchanged, once and in order, and every payload readable, if the queue these calls leave never takes the room the streams need |
| `History.RoomSuffices` | bootloader/modules/libcanard/canard.c:1549-1569 | that room is left whatever happens if the pool has it besides the queue and all frames sent |
| `EndToEnd.BroadcastArrives` | bootloader/modules/libcanard/canard.c:133-188 | what one broadcast call sends is delivered with the priority, data type, source and payload the caller gave |
| `EndToEnd.ServiceArrives` | bootloader/modules/libcanard/canard.c:190-232 | the same for requests and responses |
| `Scalars.EncodedBit` | bootloader/modules/libcanard/canard.c:703-742 | bytes least significant first, bits most significant first; an incomplete last byte holds its bits at the top |
| `Scalars.DecodedBit` | bootloader/modules/libcanard/canard.c:553-622 | the decoded value takes those bits back, and all higher bits are zero or the sign |
| `Scalars.ScalarRoundTrip` | bootloader/modules/libcanard/canard.c:508-745 | for every length from 1 to 64, every offset and every value that fits, signed or not: the bits written, read back into any storage, decode to the value |
| `Scalars.TwoStepExtension` | bootloader/modules/libcanard/canard.c:588-622 | setting the bits above the sign within the standard type, and then widening the type, extends the sign to 64 bits |
| `Scalars.SwapByteOrder` | bootloader/modules/libcanard/canard.c:1470-1487 | reverses the bytes in place |
| `Scalars.EncodeScalar` | bootloader/modules/libcanard/canard.c:668-745 | writes exactly the encoding, on hosts of either byte order, and no other bit of the destination |
| `Decoding.ReadPieces` | bootloader/modules/libcanard/canard.c:1371-1444 | reading head, blocks and tail one after the other is one copy from the logical payload; none of the assertions fails |
| `Decoding.DescatterTransferPayload` | bootloader/modules/libcanard/canard.c:1352-1453 | the same for any transfer with intact pointers, any offset and length up to 64; returns the bits available |
| `Decoding.DecodeScalar` | bootloader/modules/libcanard/canard.c:508-666 | rejects invalid lengths, and otherwise returns the value of the bits at the offset, however the payload is scattered and whatever the byte order |
| `Decoding.EncodeThenDecode` | bootloader/modules/libcanard/canard.c:508-745 | the two calls one after the other: if the received payload is what the encoder left, the decoder returns the full length and the value encoded, for either byte order on each side and however the payload is scattered |
| `Decoding.HandedOver` | bootloader/modules/libcanard/canard.c:445-456 | the transfer an application is handed has intact pointers |
| `Crc64.FedConcat` | bootloader/src/util.hpp:49-69 | the register may be fed piece by piece |
| `Crc64.CRC64WE.Add` | bootloader/src/util.hpp:49-66 | the unrolled form computes the bitwise CRC-64-WE |
| `Crc64.BitwiseAdd` | tools/make_boot_descriptor.py:171-178 | and so does the loop of the tool |
| `Crc64.BurstDetected` | bootloader/src/util.hpp:49-69 | two messages that differ within 8 bytes in a row have different CRCs |
| `Crc64.FedIsRemainder` | bootloader/src/util.hpp:41-74 | whatever is fed, the register is the remainder of the polynomial division by 0x42F0E1EBA9EA3693 of ECMA-182 |
| `Crc64.CheckValue` | bootloader/src/util.hpp:41-74 | the digits from 1 to 9 give the check value of CRC-64-WE |
| `AppImage.UnpackPack` | tools/make_boot_descriptor.py:76-85 | a descriptor unpacks to the values packed |
| `AppImage.PackUnpack` | tools/make_boot_descriptor.py:76-85 | and packs to the bytes unpacked |
| `AppImage.InBytes` | bootloader/src/bootloader.hpp:154-176 | where the fields of a descriptor lie, byte by byte |
| `AppImage.LocatedIs` | bootloader/src/bootloader.cpp:66-160 | the search finds the descriptor at the least offset, a multiple of 8, whose signature, size and CRC are right, and fails if and only if there is none |
| `AppImage.AcceptsInBytes` | bootloader/src/bootloader.cpp:66-160 | what is accepted, by the bytes of the storage: signature, a size that is a positive multiple of 8 within the limit, and the CRC with eight zeros in its place |
| `Bootloader.StorageBackend.Read` | bootloader/src/app_storage_backend.hpp:79-90 | reading is cut off at the end of the storage |
| `Bootloader.BootController.FeedRange` | bootloader/src/bootloader.cpp:106-143 | chunks of 1024 bytes feed the same CRC as the whole range |
| `Bootloader.BootController.ComputeImageCrc` | bootloader/src/bootloader.cpp:101-145 | the CRC of everything before the CRC field, eight zeros, and the rest up to the image size |
| `Bootloader.BootController.LocateAppDescriptor` | bootloader/src/bootloader.cpp:66-160 | the loop performs that search |
| `Bootloader.BootController.VerifyAppAndUpdateState` | bootloader/src/bootloader.cpp:162-186 | state and cached information follow from the search |
| `Bootloader.Sink.HandleNextDataChunk` | bootloader/src/bootloader.cpp:33-52 | one backend write at the current offset if the chunk fits the maximum size, and none otherwise; the offset advances unless the write was short |
| `Bootloader.BootController.PrepareUpgrade` | bootloader/src/bootloader.cpp:278-308 | refused without any effect in ReadyToBoot and during an upgrade; otherwise one call to the backend, and a failure ends with a new search |
| `Bootloader.BootController.FinalizeUpgrade` | bootloader/src/bootloader.cpp:323-350 | tells the backend whether the download succeeded, and ends with a new search |
| `Bootloader.BootController.GetState` | bootloader/src/bootloader.cpp:199-211 | the boot delay expires into ReadyToBoot, and only it does |
| `Bootloader.BootController.CancelBoot` | bootloader/src/bootloader.cpp:227-247 | cancels a boot that is pending |
| `Bootloader.BootController.RequestBoot` | bootloader/src/bootloader.cpp:249-270 | requests one |
| `Bootloader.SectionSafe` | bootloader/src/bootloader.cpp:272-351 | every mutex-protected section of any thread keeps: at most one upgrade under way, exactly in AppUpgradeInProgress; cached information exactly in BootDelay, BootCancelled and ReadyToBoot, and that of the application in the storage. The storage is only written during an upgrade, and the assertion at finalization holds |
| `Bootloader.RunSafe` | bootloader/src/bootloader.cpp:272-351 | so does every interleaving |
| `Bootloader.ReadyMeansVerified` | bootloader/src/bootloader.cpp:199-270 | from power-on, in every interleaving: ReadyToBoot means that the storage holds an application the search finds, and that it is the one reported |
| `Bootloader.ReadyEntered` | bootloader/src/bootloader.cpp:198-270 | ReadyToBoot is entered exactly by a request out of BootDelay or BootCancelled, or when the delay has expired in BootDelay |
| `Bootloader.DelayEntered` | bootloader/src/bootloader.cpp:316-350 | BootDelay is entered exactly when an upgrade that neither download nor backend has failed leaves a valid application |
| `Bootloader.CancelledEntered` | bootloader/src/bootloader.cpp:226-350 | BootCancelled is entered exactly by a cancellation, or when a failed upgrade leaves a valid application |
| `Bootloader.UpgradeEntered` | bootloader/src/bootloader.cpp:272-315 | an upgrade starts from every state but ReadyToBoot and an upgrade, exactly if the backend agrees |
| `Bootloader.StaysDown` | bootloader/src/bootloader.cpp:198-350 | out of BootCancelled and NoAppToBoot nothing but a request or an upgrade leads |
| `Bootloader.CancelHolds` | bootloader/src/bootloader.cpp:226-247 | a cancelled boot stays cancelled, however often and late the state is polled |
| `Bootloader.FailureHolds` | bootloader/src/bootloader.cpp:296-342 | after a failed upgrade nothing is booted without a request or another upgrade |
| `Bootloader.FaultlessUpgrade` | bootloader/src/bootloader.cpp:272-351 | an upgrade without faults leaves exactly the image in the storage, however it is cut into chunks, and the verdict about it in the state |
| `DescriptorTool.FirmwareImage.Length` | tools/make_boot_descriptor.py:182-194 | the padded length, and the padding it takes |
| `DescriptorTool.FirmwareImage.AppDescriptorOffset` | tools/make_boot_descriptor.py:197-217 | the cached offset, or that of the first match if none is known or it is 0 |
| `DescriptorTool.FirmwareImage.ImageCrc` | tools/make_boot_descriptor.py:160-180 | CRC-64-WE of the padded contents with zeros for the CRC field |
| `DescriptorTool.FirmwareImage.WriteDescriptor` | tools/make_boot_descriptor.py:140-157 | the contents after both writes; fails exactly if there is no match |
| `DescriptorTool.MakeApplication` | tools/make_boot_descriptor.py:236-253 | no file without a descriptor; otherwise the patched contents, padded with 0xFF to a multiple of 8 |
| `DescriptorTool.FirstMatchIs` | tools/make_boot_descriptor.py:197-217 | the search finds the first match, except one at the very end of an image that needs no padding |
| `DescriptorTool.MatchesInBytes` | tools/make_boot_descriptor.py:61-99 | what is a match, byte by byte |
| `DescriptorTool.OutputAccepted` | tools/make_boot_descriptor.py:147-180 | the bootloader accepts the file at the descriptor's offset, as a prefix of the storage within the size limit, if the tool keeps track of the descriptor |
| `DescriptorTool.OutputElsewhere` | tools/make_boot_descriptor.py:130-215 | outside the descriptor the file is the image, followed by up to seven bytes of 0xFF |
| `DescriptorTool.OutputAcceptedIff` | tools/make_boot_descriptor.py:197-217 | exactly when: the descriptor is not at offset 0, or no other one is found in the image, or the CRC is 0 by chance |
| `DescriptorTool.TracksIff` | tools/make_boot_descriptor.py:197-217 | the second search finds the same place exactly under that condition on the image, and otherwise a rival |
| `DescriptorTool.TrackOfSmall` | tools/make_boot_descriptor.py:197-217 | for images of up to a gigabyte the condition is: no match at 32 or behind, short of the last place |
| `DescriptorTool.LosesTrack` | tools/make_boot_descriptor.py:197-198 | images for which the tool patches the wrong descriptor: offset 0 counts as not known |
| `DescriptorTool.LostIsRejected` | tools/make_boot_descriptor.py:197-198 | of the 256 such images that differ in the version of the second descriptor, the bootloader accepts at most one |
| `DescriptorTool.ToolAndBootloaderAgree` | tools/make_boot_descriptor.py:147-180 | the tool's file, downloaded in any chunks, ends in BootDelay with the size, commit and version of its descriptor, if no earlier aligned offset is accepted |
| `NodeAllocation.AllocationClient.OnAllocation` | bootloader/src/l_uavcan.hpp:868-923 | another request restarts, a mismatch restarts, a matching part is the next offset, and the whole unique ID sets the node ID; the assertion on the length fails exactly for empty payloads and for more than 17 bytes, on a node without ID and from a node with one |
| `NodeAllocation.AllocationClient.NextRequest` | bootloader/src/l_uavcan.hpp:568-606 | the next piece of the unique ID; the assertions on its size hold |
| `NodeAllocation.RequestIsAnonymous` | bootloader/src/l_uavcan.hpp:592-599 | a request is accepted as an anonymous message and takes a single frame |
| `NodeAllocation.RunSafe` | bootloader/src/l_uavcan.hpp:550-607 | in every run the offset stays below 16, and the node ID is set at most once and only by a message with the whole unique ID, from a node that has an ID |
| `NodeAllocation.OffsetIff` | bootloader/src/l_uavcan.hpp:881-917 | in any run, the node goes on behind the first k bytes of its unique ID exactly if an allocator has confirmed them, and neither a request of any node nor a mismatch has come after that |
| `NodeAllocation.NextRequestIs` | bootloader/src/l_uavcan.hpp:881-917 | so the next request holds the flag and the first six bytes, or what follows the bytes confirmed |
| `NodeAllocation.ThreeRequests` | bootloader/src/l_uavcan.hpp:868-923 | with a conforming allocator three requests give the node its ID: the flag and six bytes, six more, and the last four |
| `Timings.ComputeCANTimings` | bootloader/modules/libcanard/drivers/stm32/canard_stm32.h:190-313 | succeeds if and only if the highest number of quanta that divides the bit time gives a prescaler in range and the rate comes out exactly; the prescaler times the quanta is the bit time |
| `Timings.SplitIsGood` | bootloader/modules/libcanard/drivers/stm32/canard_stm32.h:273-290 | both segments fit the hardware, the sample point is at most at 90.0 %, and no other such split is closer to 7/8 |
| `Timings.ClosestSplit` | bootloader/modules/libcanard/drivers/stm32/canard_stm32.h:262-300 | no other split with a sample point up to 90.0 % comes closer to 7/8 |
| `Timings.RateComesOut` | bootloader/modules/libcanard/drivers/stm32/canard_stm32.h:295-303 | for clocks that the bit rate does not divide: the rate comes out exactly if and only if the remainder is less than the bit time |
| `Timings.DividingClock` | bootloader/modules/libcanard/drivers/stm32/canard_stm32.h:190-313 | for clocks that it divides, that condition is void |
| `PoolCrc.ComputeCrc32` | src/config/config.cpp:67-91 | the loops compute the CRC over all bytes in order |
| `PoolCrc.CrcIsRemainder` | src/config/config.cpp:67-91 | whatever is fed, the register is the remainder of the polynomial division of the bytes, least significant bit first, by 0x04C11DB7 of IEEE 802.3 |
| `PoolCrc.SingleBit` | src/config/config.cpp:67-76 | one byte of 0x80 gives 0xEDB88320 |
| `PoolCrc.BurstDetected` | src/config/config.cpp:67-91 | bytes that differ within four in a row have different CRCs |
| `ConfigStore.WordBits` | src/config/config.cpp:240-260 | words are stored least significant byte first |
| `ConfigStore.PoolRoundTrip` | src/config/config.cpp:197-239 | the pool read back from its bytes is the pool |
| `ConfigStore.ConfigPool.Register` | src/config/config.cpp:161-187 | adds the parameter with its default value and its name in the layout hash; all values stay valid |
| `ConfigStore.ConfigPool.Init` | src/config/config.cpp:332-407 | for any storage contents and any read errors: restored values, repaired one by one, exactly if layout hash and CRC match, and the defaults otherwise; every value is valid |
| `ConfigStore.ConfigPool.Set` | src/config/config.cpp:265-289 | changes one value if the name exists and the value is valid, and nothing otherwise |
| `ConfigStore.ConfigPool.Get` | src/config/config.cpp:316-325 | the value, which is valid |
| `ConfigStore.ConfigPool.Erase` | src/config/config.cpp:241-252 | back to the defaults if the storage was erased |
| `ConfigStore.ConfigPool.Save` | src/config/config.cpp:197-239 | a result of 0 means that the storage holds layout hash, CRC and values |
| `ConfigStore.SaveThenInit` | src/config/config.cpp:332-407 | after a successful save, initialization with the same registrations reports "restored" and yields exactly the saved values, unless the storage cannot be read |
| `ConfigStore.CorruptionFound` | src/config/config.cpp:355-398 | a saved pool of which up to four bytes in a row have changed is never restored: the result is 3 and the values are the defaults, unless the storage cannot be read |
| `ConfigStore.CrcChanged` | src/config/config.cpp:355-398 | nor is one whose stored CRC is not that of the values |
| `ConfigStore.OtherLayout` | src/config/config.cpp:340-405 | one saved under another layout hash gives 2 and the defaults |
| `ConfigStore.LayoutsDiffer` | src/config/config.cpp:168-172 | registrations whose names, put together, differ within four bytes in a row have different hashes |

## Left out

- Canard.CanardInstance.HandleRxFrame: for frames that trip an assertion, what becomes of the state of their own descriptor and what is handed over is not stated, because the code after a failed assertion has no intended effect.
- Canard.CanardInstance.Broadcast: null pointers for payload or transfer ID are not modelled; Dafny's references and sequences exclude them.
- Canard.CanardInstance.OnReception: an application that keeps the pointers and reads them after the callback is not modelled, nor one that calls reception, cleanup or PopTxQueue out of it; this node does neither.
- BxCan.Controller.Transmit: the status register is read once; mailboxes that empty between two reads only make the driver more cautious. The debug-only assertion on inner priority inversion is compiled out.
- Bootloader.BootController.PrepareUpgrade: upgradeApp is modelled by its mutex-protected sections, since everything between them may interleave with other threads; the downloader is any sequence of chunks.
- Bootloader.StorageBackend.Read: read errors other than the end of the storage are not modelled.
- DescriptorTool.MakeApplication: images whose padded length does not fit 32 bits are not modelled; packing their descriptor raises an exception.
- NodeAllocation.AllocationClient.OnAllocation: a node ID of 0 is ignored, where the code asserts. Deadlines and random delays are left open: a request may be sent at any time.
- Timings.ComputeCANTimings: the intermediate assertion canard_stm32.h:277, which fails for sums 2 and 3 before the code corrects them, is compiled out.
- ConfigStore.ConfigPool.Set: the validity of a value is any function of parameter and value; floating-point comparison is not modelled.
- canardSTM32Receive and the acceptance filters, register initialization, float16 conversion: not modelled.
- The flash writer behind the storage backend: upgrades are stated over the backend's contract, since page erasure is lazy.
- Firmware download, file transfer, node status and log messages of the node, the command line of the tool and its patching of further files: not modelled.
- The EEPROM backend of the configuration store, sensors, LEDs, watchdog and boot jump: not modelled.
