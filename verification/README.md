# Verified models of the TienKung driver stack

A humanoid robot talks to its joints, hands and inertial sensor over EtherCAT, CAN frames carried in
EtherCAT slots, and a serial line. This project models the wire-protocol and scheduling code of that
stack in Dafny and proves what it promises, over every input, every interleaving or every run. Code
that changes state step by step is modelled by methods, loops and classes; each is proved against a
function on values, and the laws are stated about those functions.

`dafny verify dfyconfig.toml` checks everything.

| files | what they model |
|---|---|
| EthercatTopology, EthercatDc, EthercatDelay, EthercatConfig, EthercatBus | the slave tree, the search for parents, and the propagation delays derived from one frame's walk over the tree |
| ShiftRegister, CrcTheory, ErrorDetection, CrcCompute | polynomial division, the nibble-trick CRC of the IMU link and the table CRC of the remote-control link (section 2 of ITU-T V.41 for the generator x^16+x^12+x^5+1) |
| VnPacket, VnBinary, VnComposite | validity, lengths, finalised commands and field-by-field parsing of IMU packets |
| FinderModel, FinderSoundness, FinderRefinement, FinderReach, FinderRuns, FinderLimits, FinderAscii, PacketFinder | the streaming framer that picks packets out of chunks of bytes |
| SdoWrite, SdoRead, SdoTransfer | segmented SDO transfers over CoE (section 7.2.4.3 of CiA 301) |
| EthercatDatagram | EtherCAT frames with several datagrams |
| LockFreeQueue, FastConnection | the queue between two threads, and publish/subscribe with cached snapshots |
| SoemMaster | the time-shared bus cycle |
| TsinghuaHand, TsinghuaHandDevice | multi-frame commands to the hand |
| MotorDeviceManager, MotorCommand, MotorDevice | the status barrier of the motors, and quantised and packed motor commands |

## Where the code does less than it seems to

The code is modelled as it is. Where a property one would expect fails, an input is given and the exact
condition under which it holds is proved.

- Delays are exact beyond the symmetric links the source assumes: the return path may take one tick longer (`DelaysAreWalkTimes`, `NoSkewIffBalanced`).
- An SDO download keeps the size of the rest in 16 bits and carries only the size modulo 65536; an empty expedited value reads back as four bytes (`DownloadIsSplit`, `UploadUndoesDownload`).
- An SDO download goes on after a segment could not be sent, and then reports success (`SuccessIsDelivery`, with a witness in `LossGoesUnnoticed`).
- An SDO upload does not check its segments against the caller's buffer, and takes announced sizes from 2^31 for negative lengths (`CopiesStayInside`, `FramesAreReceived`).
- An ASCII packet open across chunks loses bytes when a 0xFA starts in a later chunk, and a packet can be reported that was never sent (`PhantomPacket`, `AsciiKeptIff`).
- A candidate without group fields is never given up; once the stretch since it outgrows the carry buffer, what is reported depends on the chunks (`ChunkingMattersBeyondReach`, `FinderRefinesDecoder`).
- The packet length leaves out the GPS2 group, and the group parsers skip six flags that have a length (`ParserMeetsTable`, with a reported packet that throws in `ReportedPacketThrows`).
- Subscription ids wrap after 2^32 (`WrappedIdEndsAnother`, `ErasesOwnIffNoClash`).
- A frame whose caller says `more` wrongly does not parse (`ParsesBackIffChained`).
- A time-sharing slave that the bus did not find stays in standard mode (`ServedOnceInTwo`).
- Motor names that agree modulo 65536 are not all waited for (`EveryMotorAwaited`, `SharedKey`).
- Readiness of the motor manager latches, and is early exactly if a motor is made after it (`NeverEarlyIffNoneMadeLate`, `AskedTooEarly`).
- Speed and current of a position command are not clamped and spill over above 15 and 12 bits (`PositionUnpacksIffFit`).
- One-byte commands finalised without CRC are too short to pass the validity test (`FinalizedIsValid`).

## Assumptions

- Receive times are integers without 32-bit wrap-around, and slaves are entered at port 0.
- Floats of motor commands are reals; bit fields of motor, hand, SDO and datagram words are written as arithmetic on non-negative integers.
- `char` is taken as signed; only the hexadecimal decoders depend on it.
- Threads interleave under sequential consistency: access by access in the queue, operation by operation in the publish/subscribe, hand and motor models.
- Register reads, mailbox exchanges, frame exchanges, device behaviour and callbacks of motors are parameters.

## Model

| member | source | states |
|---|---|---|
| EthercatDelay.DelaysAreWalkTimes | src/body_control/src/plugins/body_control/soem_master/soem/soem/ethercatdc.c:252-431 | On every tree of clocked slaves, with any clock offset per slave, the scan leaves in each slave the time the frame takes from the first slave to it, plus the skew of the links on the way; the delays are exact if and only if no link is faster back than forth or slower back by more than one tick |
| EthercatDelay.ScanOfTree | src/body_control/src/plugins/body_control/soem_master/soem/soem/ethercatdc.c:274-409 | The scan of the slave list measures the whole tree as a depth-first definition on the tree alone does |
| EthercatDelay.ScanChildren | src/body_control/src/plugins/body_control/soem_master/soem/soem/ethercatdc.c:357-409 | From any point of the scan, the slaves behind ports 3, 1 and 2 of a slave get their measured delays and nothing before them changes |
| EthercatDelay.ScanChild | src/body_control/src/plugins/body_control/soem_master/soem/soem/ethercatdc.c:276-406 | One slave: it is entered at port 0, consumes the next port of its parent in the order 3, 1, 2, and gets its parent's delay plus the delay of its link |
| EthercatDelay.DelayOfChild | src/body_control/src/plugins/body_control/soem_master/soem/soem/ethercatdc.c:379-405 | The three latch differences add up to half the link round trip plus the time spent in earlier branches |
| EthercatDelay.NoSkewIffBalanced | src/body_control/src/plugins/body_control/soem_master/soem/soem/ethercatdc.c:403-405 | No slave of a tree is measured wrongly if and only if every link is balanced; the assumption in the source comment is stronger than needed |
| EthercatDelay.MeasuredIsSkewedEntry | src/body_control/src/plugins/body_control/soem_master/soem/soem/ethercatdc.c:403-405 | Errors add up along the path: a measured delay is the entry time plus the rounded half asymmetries of the links above |
| EthercatDc.ConfigDc | src/body_control/src/plugins/body_control/soem_master/soem/soem/ethercatdc.c:252-431 | The loop over the slave array, clocked and clockless slaves alike, ends in the state the scan over values gives, and reports whether any slave has a clock |
| EthercatDc.ConfigDcSlave | src/body_control/src/plugins/body_control/soem_master/soem/soem/ethercatdc.c:295-410 | One clocked slave: latches read, entry port found and consumed, DC parent searched, parent port consumed, delay combined |
| EthercatDc.SkipPlainSlave | src/body_control/src/plugins/body_control/soem_master/soem/soem/ethercatdc.c:411-427 | One clockless slave: latches cleared and, at the end of a branch without clocks, a port of the held parent consumed |
| EthercatDc.ParentPort | src/body_control/src/plugins/body_control/soem_master/soem/soem/ethercatdc.c:216-244 | Returns the first unconsumed port in the order 3, 1, 2, 0 and consumes exactly that port |
| EthercatDc.FindEntryPort | src/body_control/src/plugins/body_control/soem_master/soem/soem/ethercatdc.c:311-351 | Returns the open port with the earliest receive time, the first of equals |
| EthercatDc.FindDcParent | src/body_control/src/plugins/body_control/soem_master/soem/soem/ethercatdc.c:356-363 | Climbs to the nearest ancestor with a clock, and names the child of it that was passed |
| EthercatDc.CombineDelays | src/body_control/src/plugins/body_control/soem_master/soem/soem/ethercatdc.c:374-405 | Combines the three time differences with the sign corrections and truncating division of the source |
| EthercatDc.Earliest | src/body_control/src/plugins/body_control/soem_master/soem/soem/ethercatdc.c:337-350 | The first index whose receive time is not above any other |
| EthercatConfig.ParentSearchRecoversTree | src/body_control/src/plugins/body_control/soem_master/soem/soem/ethercatconfig.c:440-470 | Open-port counts in depth-first order determine the tree: the backward search finds every slave's true parent on every tree |
| EthercatConfig.SearchPassesDevice | src/body_control/src/plugins/body_control/soem_master/soem/soem/ethercatconfig.c:444-468 | Walking backwards over the whole list of a subtree, the search passes it with its counter one lower |
| EthercatConfig.FindParent | src/body_control/src/plugins/body_control/soem_master/soem/soem/ethercatconfig.c:440-470 | The loop with its running counter stores the parent the search finds |
| EthercatBus.MeasureBus | src/body_control/src/plugins/body_control/soem_master/SoemMaster.cpp:53-67 | Parent search followed by delay measurement: from port counts and latches alone, every slave of every tree ends with its walk time up to skew, exactly if and only if all links are balanced |
| CrcTheory.SerialIsRemainder | src/usb_sbus/src/crc_compute.cpp:9-27 | The shift register computes the remainder of schoolbook long division of the message followed by as many zero bits as the register is wide, for every generator and 16 and 32 bits |
| CrcTheory.RegisterIsSerial | src/usb_sbus/include/crc_compute.h:66-75 | Dividing a byte at a time equals dividing a bit at a time, for every message |
| CrcTheory.TableStep | src/usb_sbus/include/crc_compute.h:71-72 | One table look-up replaces eight division steps |
| CrcTheory.RegisterJoin | src/usb_sbus/include/crc_compute.h:79-96 | A message may be cut anywhere: the second part continues from the register the first left |
| CrcTheory.TwoByteErrorsDetected | src/usb_sbus/include/crc_compute.h:63-76 | For every odd generator, equal-length messages that differ only within two adjacent bytes have different remainders |
| CrcTheory.ZeroIffSame | src/body_control/src/plugins/vn100_imu/vn100/src/packet.cpp:181-186 | A register fed two bytes becomes zero exactly if it held these two bytes |
| CrcCompute.Crc.constructor | src/usb_sbus/include/crc_compute.h:41-50 | A CRC object is made with a full table for its parameters |
| CrcCompute.Crc.CrcInit | src/usb_sbus/src/crc_compute.cpp:4-30 | Fills all 256 entries with the division of the entry's index |
| CrcCompute.Crc.Compute | src/usb_sbus/include/crc_compute.h:62-76 | The one-shot form returns the bit-serial CRC of the message and leaves the streaming register alone |
| CrcCompute.Crc.ComputeNext | src/usb_sbus/include/crc_compute.h:78-96 | The streaming form continues from its register, or from the initial value when told to |
| CrcCompute.Crc.ComputePieces | src/usb_sbus/include/crc_compute.h:78-96 | Streaming over any split, re-initialised on the first piece only, gives the CRC of the whole |
| CrcCompute.NibbleTrickIsTable | src/body_control/src/plugins/vn100_imu/vn100/src/error_detection.cpp:25-41 | The nibble trick and the table with generator 0x1021, initial value 0 and final value 0 agree on every message |
| ErrorDetection.Crc16 | src/body_control/src/plugins/vn100_imu/vn100/src/error_detection.cpp:25-41 | The loop computes the fold of the nibble step |
| ErrorDetection.NibbleStepIsByteStep | src/body_control/src/plugins/vn100_imu/vn100/src/error_detection.cpp:31-37 | The five swaps and exclusive-ors of one byte are eight steps of division by 0x1021 |
| ErrorDetection.Crc16IsRemainder | src/body_control/src/plugins/vn100_imu/vn100/src/error_detection.cpp:25-41 | The nibble trick computes the remainder of bit-by-bit long division by x^16+x^12+x^5+1 |
| ErrorDetection.Crc16DetectsTwoBytes | src/body_control/src/plugins/vn100_imu/vn100/src/error_detection.cpp:25-41 | Equal-length messages that differ only within two adjacent bytes have different CRCs |
| ErrorDetection.ResidueIffAppended | src/body_control/src/plugins/vn100_imu/vn100/src/packet.cpp:181-186 | A message and two more bytes have CRC 0 exactly if the bytes are the CRC of the message, high byte first |
| ErrorDetection.Checksum8 | src/body_control/src/plugins/vn100_imu/vn100/src/error_detection.cpp:10-21 | The loop computes the exclusive-or of all bytes |
| ErrorDetection.OneByteErrorDetected | src/body_control/src/plugins/vn100_imu/vn100/src/error_detection.cpp:10-21 | Changing one byte changes the checksum |
| VnPacket.IsValid | src/body_control/src/plugins/vn100_imu/vn100/src/packet.cpp:145-192 | The validity test of ASCII and binary packets, with every early rejection |
| VnPacket.BinaryValidIffCrcAppended | src/body_control/src/plugins/vn100_imu/vn100/src/packet.cpp:181-186 | A binary packet passes exactly if its last two bytes are the CRC of what lies between the sync byte and them, high byte first |
| VnPacket.BinaryDamageDetected | src/body_control/src/plugins/vn100_imu/vn100/src/packet.cpp:181-186 | Damage within two adjacent bytes behind the sync byte makes a valid packet invalid |
| VnPacket.FinalizeCommand | src/body_control/src/plugins/vn100_imu/vn100/src/packet.cpp:684-710 | Appends the suffix of the mode and a terminating zero behind the command in the buffer and touches nothing behind them |
| VnPacket.FinalizedIsValid | src/body_control/src/plugins/vn100_imu/vn100/src/packet.cpp:684-710 | A finalised $-command passes the validity test if and only if it has at least two bytes or is in CRC mode |
| VnPacket.ChecksumModeDetectsOneByte | src/body_control/src/plugins/vn100_imu/vn100/src/packet.cpp:145-180 | In checksum mode changing any one body byte of a finalised command makes it fail |
| VnPacket.CrcModeDetectsTwoBytes | src/body_control/src/plugins/vn100_imu/vn100/src/packet.cpp:145-180 | In CRC mode damage within two adjacent body bytes makes it fail |
| VnPacket.Hex2RoundTrip | src/body_control/src/plugins/vn100_imu/vn100/src/utilities.cpp:66-74 | Two hexadecimal digits read back as the byte that was printed |
| VnPacket.Hex4RoundTrip | src/body_control/src/plugins/vn100_imu/vn100/src/utilities.cpp:163-171 | Four hexadecimal digits read back as the word that was printed |
| VnBinary.ComputeBinaryPacketLength | src/body_control/src/plugins/vn100_imu/vn100/src/packet.cpp:2864-2906 | Adds up the six counted groups; reads no more than the header |
| VnBinary.PayloadBytes | src/body_control/src/plugins/vn100_imu/vn100/src/packet.cpp:2908-2930 | Adds up the lengths of the flags that are set |
| VnBinary.GroupsReadHeaderOnly | src/body_control/src/plugins/vn100_imu/vn100/src/packet.cpp:2864-2906 | Packets with the same header announce the same length |
| VnComposite.PacketCursor.Extract | src/body_control/src/plugins/vn100_imu/vn100/src/packet.cpp:532-541 | An extraction throws exactly if it would run into the CRC; otherwise the cursor moves by its size, and the first one starts behind one field per set bit of the group byte |
| VnComposite.PacketCursor.ParseBinary | src/body_control/src/plugins/vn100_imu/vn100/src/compositedata.cpp:2491-2510 | Throws exactly if the fields of the seven groups do not fit before the CRC; otherwise hands on all of them in order and stops right behind the last |
| VnComposite.PacketCursor.ParseCommonGroup | src/body_control/src/plugins/vn100_imu/vn100/src/compositedata.cpp:2514-2576 | Takes the common fields, piece by piece in flag order |
| VnComposite.PacketCursor.ParseTimeGroup | src/body_control/src/plugins/vn100_imu/vn100/src/compositedata.cpp:2578-2621 | Takes the time fields, piece by piece in flag order |
| VnComposite.PacketCursor.ParseImuGroup | src/body_control/src/plugins/vn100_imu/vn100/src/compositedata.cpp:2623-2665 | Takes the IMU fields in flag order; flag 12 is skipped |
| VnComposite.PacketCursor.ParseGpsGroup | src/body_control/src/plugins/vn100_imu/vn100/src/compositedata.cpp:2667-2741 | Takes the GPS fields, piece by piece in flag order |
| VnComposite.PacketCursor.ParseAttitudeGroup | src/body_control/src/plugins/vn100_imu/vn100/src/compositedata.cpp:2743-2772 | Takes the attitude fields in flag order; flags 9 to 11 are skipped |
| VnComposite.PacketCursor.ParseInsGroup | src/body_control/src/plugins/vn100_imu/vn100/src/compositedata.cpp:2774-2809 | Takes the INS fields in flag order; flags 11 and 12 are skipped |
| VnComposite.PacketCursor.ParseGps2Group | src/body_control/src/plugins/vn100_imu/vn100/src/compositedata.cpp:2811-2881 | Takes the GPS2 fields, piece by piece in flag order |
| VnComposite.ParserMeetsTable | src/body_control/src/plugins/vn100_imu/vn100/src/compositedata.cpp:2491-2881 | For every packet of its announced length the parsers throw if and only if they take something and the bytes the length leaves out exceed those they skip; otherwise they stop short of the CRC by exactly the difference |
| FinderLimits.ReportedPacketThrows | src/body_control/src/plugins/vn100_imu/vn100/src/compositedata.cpp:2491-2510 | A concrete packet with the common and the GPS2 group that is valid and of its announced length, and on which the parsers throw |
| VnComposite.KnownGroupsSkipNothing | src/body_control/src/plugins/vn100_imu/vn100/src/packet.cpp:47-56 | No byte is skipped if and only if every set flag that has a length is one its parser takes |
| VnComposite.KnownPacketsParse | src/body_control/src/plugins/vn100_imu/vn100/src/compositedata.cpp:2491-2809 | A packet of its announced length with known flags only never throws; its fields tile the payload from behind the header to the CRC |
| VnComposite.ParseUndoesCompose | src/body_control/src/plugins/vn100_imu/vn100/src/compositedata.cpp:2491-2809 | If a payload was written as the bytes of a list of fields, the parsers hand on exactly that list |
| FinderSoundness.ReportsAreSlices | src/body_control/src/plugins/vn100_imu/vn100/src/packetfinder.cpp:141-441 | For every stream and every chunking, each binary packet reported is a contiguous slice of the stream that starts with the sync byte at the reported index, is as long as its header announces and has CRC residue 0 |
| FinderSoundness.ReceiveSound | src/body_control/src/plugins/vn100_imu/vn100/src/packetfinder.cpp:141-441 | One call keeps the invariant that ties buffer, trackers and stream together |
| FinderSoundness.TrackerSees | src/body_control/src/plugins/vn100_imu/vn100/src/packetfinder.cpp:228-357 | What a tracker does with a byte depends only on the bytes since its start, counters that run below zero included |
| FinderSoundness.EndOfChunkSound | src/body_control/src/plugins/vn100_imu/vn100/src/packetfinder.cpp:378-441 | Copying the chunk to the carry buffer and moving the trackers keeps every tracker on its place in the stream |
| FinderRuns.FinderRefinesDecoder | src/body_control/src/plugins/vn100_imu/vn100/src/packetfinder.cpp:141-441 | For every chunking of a stream no stretch of open candidates of which outgrows the buffer, counted from the last point at which nothing was open, the binary reports are those of a decoder defined on the whole stream: the earliest start whose bytes form a packet is reported, and decoding restarts behind it |
| FinderRuns.ChunkingDoesNotMatter | src/body_control/src/plugins/vn100_imu/vn100/src/packetfinder.cpp:141-441 | Two chunkings of such a stream give the same binary reports |
| FinderRuns.OneChunkIsDecoded | src/body_control/src/plugins/vn100_imu/vn100/src/packetfinder.cpp:141-441 | Received as one chunk, every stream gives the reports of the decoder, however long its open stretches |
| FinderRuns.PacketFoundOnce | src/body_control/src/plugins/vn100_imu/vn100/src/packetfinder.cpp:141-441 | From every idle state of every run, in the middle of a chunk or between two, a valid packet of the counted kind in any split is reported, once and with its index, if and only if no packet inside it is complete first |
| FinderRuns.QuietUntilLastByte | src/body_control/src/plugins/vn100_imu/vn100/src/packetfinder.cpp:226-369 | From every idle state, before the last byte of such a packet is in, nothing is reported |
| FinderRuns.PacketsFitTheBuffer | src/body_control/src/plugins/vn100_imu/vn100/src/packetfinder.cpp:58-66 | No packet the finder waits for has more than 274 bytes, so the buffer of 512 suffices from idle |
| FinderReach.ByteReaches | src/body_control/src/plugins/vn100_imu/vn100/src/packetfinder.cpp:147-375 | One byte keeps the finder linked to the stream: it holds nothing from before the oldest open stretch, which is told from the stream alone |
| FinderReach.RunReaches | src/body_control/src/plugins/vn100_imu/vn100/src/packetfinder.cpp:141-441 | Any further chunks keep that link while the open stretches fit the buffer, from any state that has it |
| FinderLimits.NoiseIsForgotten | src/body_control/src/plugins/vn100_imu/vn100/src/packetfinder.cpp:366-369 | Bytes without sync bytes and dollar signs leave nothing open, however many they are |
| FinderLimits.NoiseIsWithinReach | src/body_control/src/plugins/vn100_imu/vn100/src/packetfinder.cpp:366-369 | Noise of any length is within reach of any buffer of two bytes or more |
| FinderLimits.ChunkingMattersBeyondReach | src/body_control/src/plugins/vn100_imu/vn100/src/packetfinder.cpp:427-441 | A concrete stream with a candidate that is never given up: the packet at its end is reported when all comes at once, and not in two chunks |
| FinderRefinement.ByteDecodes | src/body_control/src/plugins/vn100_imu/vn100/src/packetfinder.cpp:147-375 | One byte keeps the finder in step with the decoder |
| FinderRefinement.EndOfChunkTracks | src/body_control/src/plugins/vn100_imu/vn100/src/packetfinder.cpp:378-441 | No tracker the decoder needs is lost at the end of a chunk |
| FinderAscii.AsciiKeptIff | src/body_control/src/plugins/vn100_imu/vn100/src/packetfinder.cpp:394-415 | At the end of a chunk an open ASCII packet keeps its bytes if and only if it started in the chunk or the whole chunk is carried over |
| FinderAscii.AsciiReportsAreSlices | src/body_control/src/plugins/vn100_imu/vn100/src/packetfinder.cpp:147-224 | In runs without such a loss every ASCII report is a slice of the stream at the reported index |
| FinderAscii.AsciiSlicesIfQuietEnds | src/body_control/src/plugins/vn100_imu/vn100/src/packetfinder.cpp:147-224 | The same told from the stream and the ends of chunks: it suffices that no chunk without a dollar sign ends with an ASCII packet open and a candidate open that began within the chunk |
| FinderAscii.PhantomPacket | src/body_control/src/plugins/vn100_imu/vn100/src/packetfinder.cpp:394-398 | A concrete stream in three chunks for which a packet is reported that is nowhere in it |
| PacketFinder.PacketFinder.DataReceived | src/body_control/src/plugins/vn100_imu/vn100/src/packetfinder.cpp:141-441 | Receiving a chunk keeps every report genuine, does what the model on values does, and stays in step with the whole-stream decoder while the buffer reaches back far enough |
| PacketFinder.PacketFinder.ReceiveByte | src/body_control/src/plugins/vn100_imu/vn100/src/packetfinder.cpp:147-375 | One turn of the byte loop |
| PacketFinder.PacketFinder.ReceiveAsciiByte | src/body_control/src/plugins/vn100_imu/vn100/src/packetfinder.cpp:149-224 | Start, end and length limit of ASCII packets, with the buffer limit on split packets |
| PacketFinder.PacketFinder.AdvanceTracker | src/body_control/src/plugins/vn100_imu/vn100/src/packetfinder.cpp:230-357 | One byte on one tracker: group byte, group fields, payload, validity |
| PacketFinder.PacketFinder.UpdateTrackers | src/body_control/src/plugins/vn100_imu/vn100/src/packetfinder.cpp:226-357 | The walk over the deck, stopped by the first packet completed |
| PacketFinder.PacketFinder.ReceiveBinaryByte | src/body_control/src/plugins/vn100_imu/vn100/src/packetfinder.cpp:226-364 | Report and reset, or removal of the trackers given up |
| PacketFinder.PacketFinder.RebaseTrackers | src/body_control/src/plugins/vn100_imu/vn100/src/packetfinder.cpp:417-425 | Indices into the chunk become indices into the carry buffer |
| PacketFinder.PacketFinder.CarryOver | src/body_control/src/plugins/vn100_imu/vn100/src/packetfinder.cpp:378-441 | What is copied to the carry buffer, or everything given up when it would overflow |
| PacketFinder.PacketFinder.ResetTracking | src/body_control/src/plugins/vn100_imu/vn100/src/packetfinder.cpp:134-139 | Empties both decks and the buffer |
| SdoWrite.SdoWrite | src/body_control/src/plugins/body_control/soem_master/soem/soem/ethercatcoe.c:331-535 | Sends the frames of the download as far as the answers let it, the first only with a good answer, later ones unless refused; reports the last exchange |
| SdoWrite.SendSegments | src/body_control/src/plugins/body_control/soem_master/soem/soem/ethercatcoe.c:449-520 | The segment loop, which goes on after a failed send or a missing answer |
| SdoWrite.NextSegment | src/body_control/src/plugins/body_control/soem_master/soem/soem/ethercatcoe.c:451-489 | Builds one segment in the mailbox buffer, over what the frame before left there |
| SdoTransfer.DownloadIsSplit | src/body_control/src/plugins/body_control/soem_master/soem/soem/ethercatcoe.c:400-520 | Every frame fits the mailbox, toggle bits alternate from 0, only the final segment has the last bit, and exactly the first size mod 65536 bytes are carried, in order |
| SdoTransfer.SegmentsCarryPieces | src/body_control/src/plugins/body_control/soem_master/soem/soem/ethercatcoe.c:449-487 | Each segment carries its piece by the rules of length field, last bit and unused count |
| SdoTransfer.PiecesTile | src/body_control/src/plugins/body_control/soem_master/soem/soem/ethercatcoe.c:452-459 | The pieces put together are the data below its 16-bit size, and none is empty |
| SdoTransfer.AnySplitIsRead | src/body_control/src/plugins/body_control/soem_master/soem/soem/ethercatcoe.c:177-286 | Whatever the sizes of the pieces, a short last one padded to seven included, the upload rebuilds the value and its size; an announced size from 2^31 on counts as negative |
| SdoTransfer.FramesAreReceived | src/body_control/src/plugins/body_control/soem_master/soem/soem/ethercatcoe.c:177-286 | What the reader makes of any opening frame and segments: the bytes so far and whether it is complete, still asking, refused for lack of room, or about to copy a negative length |
| SdoTransfer.CopiesStayInside | src/body_control/src/plugins/body_control/soem_master/soem/soem/ethercatcoe.c:189-257 | The copies stay within the caller's buffer if and only if the upload is refused, negative or in one piece, or its pieces together fit; pieces that add up to the announced size always do |
| SdoTransfer.UploadUndoesDownload | src/body_control/src/plugins/body_control/soem_master/soem/soem/ethercatcoe.c:349-487 | The reader undoes the writer if and only if the value has fewer than 65536 bytes and an empty value does not go expedited |
| SdoTransfer.ExpeditedIsRead | src/body_control/src/plugins/body_control/soem_master/soem/soem/ethercatcoe.c:350-366 | The expedited size field comes back for one to four bytes and only for these |
| SdoTransfer.SuccessIsDelivery | src/body_control/src/plugins/body_control/soem_master/soem/soem/ethercatcoe.c:490-517 | A download that reports success delivered the value if and only if every frame was put into the mailbox |
| SdoTransfer.LossGoesUnnoticed | src/body_control/src/plugins/body_control/soem_master/soem/soem/ethercatcoe.c:490-517 | A concrete download of 28 bytes: two segments in a row are never sent, success is reported, the toggle bits that arrive still alternate, and the value is cut |
| SdoRead.SdoRead | src/body_control/src/plugins/body_control/soem_master/soem/soem/ethercatcoe.c:125-310 | For every well-formed conversation: fills the caller's buffer from the replies, expedited, normal or segmented, or says that the source would copy past its end or copy a negative length; requests alternate the toggle bit from 0 |
| SdoRead.ReadSegments | src/body_control/src/plugins/body_control/soem_master/soem/soem/ethercatcoe.c:206-269 | The segment loop: silent replies are asked again, unexpected ones end it |
| SdoRead.TakeSegment | src/body_control/src/plugins/body_control/soem_master/soem/soem/ethercatcoe.c:236-257 | Copies the data of one segment, less the unused bytes of a last one of seven, if it fits |
| EthercatDatagram.ParsesBackIffChained | src/body_control/src/plugins/body_control/soem_master/soem/soem/ethercatbase.c:68-146 | A frame parses back to exactly the datagrams added if and only if more was said for all added ones but the last; otherwise it does not parse |
| EthercatDatagram.OffsetsStayGood | src/body_control/src/plugins/body_control/soem_master/soem/soem/ethercatbase.c:143-145 | An offset once returned locates its data after any further datagrams; the 11-bit length is the buffer length less 16 |
| EthercatDatagram.TxBuffer.SetupDatagram | src/body_control/src/plugins/body_control/soem_master/soem/soem/ethercatbase.c:68-91 | The buffer holds one datagram, its data right behind the header of the received frame |
| EthercatDatagram.TxBuffer.AddDatagram | src/body_control/src/plugins/body_control/soem_master/soem/soem/ethercatbase.c:107-146 | The buffer holds the datagrams before and the new one; the returned offset locates its data in the stripped frame |
| EthercatDatagram.TxBuffer.WriteDatagramData | src/body_control/src/plugins/body_control/soem_master/soem/soem/ethercatbase.c:31-55 | Zeros for reading commands, the data for others, nothing else touched |
| EthercatDatagram.TxBuffer.MarkFirst | src/body_control/src/plugins/body_control/soem_master/soem/soem/ethercatbase.c:116-119 | Adds to the length field and flags the first datagram of the frame, whichever datagram is added |
| EthercatDatagram.Extended | src/body_control/src/plugins/body_control/soem_master/soem/soem/ethercatbase.c:107-146 | Chaining a datagram keeps all earlier ones readable |
| LockFreeQueue.QueueIsFifo | src/fast_ros/include/fast_ros/LockFreeQueue.h:18-43 | For every interleaving of single accesses of one producer and one consumer, with freed addresses reused: no null or freed access, what is observed is a legal history of one FIFO, and the values pushed are those popped followed by those still linked |
| LockFreeQueue.StepKeeps | src/body_control/src/common/util/LockFreeQueue.h:16-41 | Every single step keeps the chain invariant and acts on the contents like a FIFO |
| LockFreeQueue.NonEmptyIsLinked | src/fast_ros/include/fast_ros/LockFreeQueue.h:18-34 | After a non-empty test, whatever the producer does, the next node is linked and holds the oldest value |
| LockFreeQueue.FreedIsLeftBehind | src/fast_ros/include/fast_ros/LockFreeQueue.h:25-28 | No step frees the tail or the node in the producer's hand, only the node the consumer has left |
| LockFreeQueue.NothingLost | src/fast_ros/include/fast_ros/LockFreeQueue.h:18-43 | In every legal history values come out in the order they went in |
| FastConnection.Connection.Publish | src/fast_ros/src/FastConnection.cpp:14-27 | Drains the queue of snapshots and calls exactly the handlers of the live subscriptions to the topic, in subscription order |
| FastConnection.Connection.Subscribe | src/fast_ros/src/FastConnection.cpp:29-53 | Makes a new snapshot with the subscription added, leaves the publisher's alone, and queues it |
| FastConnection.Connection.Shutdown | src/fast_ros/src/FastConnection.cpp:34-46 | Erases in place the first entry of the topic with the id, in the snapshot the publisher may hold, and queues it |
| FastConnection.ErasesOwnIffNoClash | src/fast_ros/src/FastConnection.cpp:36-44 | A shutdown ends the subscription it was made for if and only if no older live subscription to the topic has the same 32-bit id |
| FastConnection.ExactUntilIdsWrap | src/fast_ros/src/FastConnection.cpp:14-53 | Up to 2^32 subscriptions, in any order of subscribing and shutting down, exactly the subscriptions made and not shut down are live |
| FastConnection.WrappedIdEndsAnother | src/fast_ros/src/FastConnection.cpp:33-44 | With one subscription more, shutting down the newest ends the oldest |
| SoemMaster.Master.Cycle | src/body_control/src/plugins/body_control/soem_master/SoemMaster.cpp:322-327 | In every cycle the same registrations get OnRequest and OnResponse, in the same order; the frames are those of the active modes |
| SoemMaster.Master.GetRequestFromDevices | src/body_control/src/plugins/body_control/soem_master/SoemMaster.cpp:364-407 | Calls the served registrations in order and puts out one frame per slave, with can_ide 1 exactly for extended mode |
| SoemMaster.Master.SendResponseToDevices | src/body_control/src/plugins/body_control/soem_master/SoemMaster.cpp:409-444 | Hands every served registration its slot of the input, zeros beyond the slaves found, and flips the time-sharing slaves |
| SoemMaster.Master.SendFrames | src/body_control/src/plugins/body_control/soem_master/SoemMaster.cpp:386-406 | Marks extended slaves and copies the messages out |
| SoemMaster.Master.FlipModes | src/body_control/src/plugins/body_control/soem_master/SoemMaster.cpp:438-443 | Flips the time-sharing slaves the bus found, and no others |
| SoemMaster.Master.RegisterDevice | src/body_control/src/plugins/body_control/soem_master/SoemMaster.cpp:344-354 | Appends any registration; cycles stay within their tables exactly if it and all others name an existing mode, slave and passage |
| SoemMaster.Master.constructor | src/body_control/src/plugins/body_control/soem_master/SoemMaster.cpp:284-291 | All slaves begin with standard frames; cycles stay within their tables exactly if every slave found has a mode and a buffer |
| SoemMaster.ServedOnceInTwo | src/body_control/src/plugins/body_control/soem_master/SoemMaster.cpp:438-443 | On a time-sharing slave each standard or extended registration is served in exactly one of any two consecutive cycles if and only if the bus found the slave |
| SoemMaster.SlotIsLastServed | src/body_control/src/plugins/body_control/soem_master/SoemMaster.cpp:364-383 | A slot is zero if no served registration is for it, and otherwise what the last such registration made of it |
| SoemMaster.ServedBelowExact | src/body_control/src/plugins/body_control/soem_master/SoemMaster.cpp:366-383 | The calls of a cycle are the served registrations, each once, in registration order |
| TsinghuaHandDevice.ListsGoOutWhole | src/body_control/src/plugins/body_control/devices/hand/tsinghua/TsinghuaHandDevice.cpp:275-292 | Over every run, what is sent is whole command lists in push order with lone queries between them, the commands not begun are those queued, and every request gets one frame |
| TsinghuaHandDevice.RequestTakesOldest | src/body_control/src/plugins/body_control/devices/hand/tsinghua/TsinghuaHandDevice.cpp:275-292 | A request takes the oldest frame waiting; a query goes out only if none waits |
| TsinghuaHandDevice.HandReceivesCommands | src/body_control/src/plugins/body_control/devices/hand/tsinghua/TsinghuaHandDevice.cpp:16-292 | Whatever was pushed when, a receiver that goes by the identifier fields reassembles every command begun, whole and in order |
| TsinghuaHandDevice.Device.OnRequest | src/body_control/src/plugins/body_control/devices/hand/tsinghua/TsinghuaHandDevice.cpp:275-292 | Sends the next frame of the list in progress, begins the next list, or makes up a query |
| TsinghuaHandDevice.Device.SetPos | src/body_control/src/plugins/body_control/devices/hand/tsinghua/TsinghuaHandDevice.cpp:16-61 | Pushes the two position frames and a query |
| TsinghuaHandDevice.Device.SetEmergencyStop | src/body_control/src/plugins/body_control/devices/hand/tsinghua/TsinghuaHandDevice.cpp:63-90 | Pushes the stop or clear-stop frame |
| TsinghuaHandDevice.Device.SetMotionCtrl | src/body_control/src/plugins/body_control/devices/hand/tsinghua/TsinghuaHandDevice.cpp:92-214 | Pushes stop, five set-frames, start and a query |
| TsinghuaHand.CtrlReassembles | src/body_control/src/plugins/body_control/devices/hand/tsinghua/TsinghuaHandDevice.cpp:92-214 | The five set-frames reassemble to the 34 bytes of the command, which unpack to it, between stop and start, with nothing left over |
| TsinghuaHand.PosReassembles | src/body_control/src/plugins/body_control/devices/hand/tsinghua/TsinghuaHandDevice.cpp:16-61 | The two position frames reassemble to twelve bytes |
| TsinghuaHand.StopReassembles | src/body_control/src/plugins/body_control/devices/hand/tsinghua/TsinghuaHandDevice.cpp:63-90 | A stop command is one packet of six flags |
| TsinghuaHand.FrameFields | src/body_control/src/plugins/body_control/devices/hand/tsinghua/finger_types.h:5-10 | Sequence number, count and command are read back from the packed identifier |
| MotorDeviceManager.StatusesConserved | src/body_control/src/plugins/body_control/devices/motor/MotorDeviceManager.cpp:13-55 | The lists published followed by the pending one are all statuses delivered, in order |
| MotorDeviceManager.DueIffAllCalledBack | src/body_control/src/plugins/body_control/devices/motor/MotorDeviceManager.cpp:43-55 | Over every history, the first list and motors made in between included: a list is published exactly at a callback by which the manager is ready and every name has called back since the last publication and since its motor was made |
| MotorDeviceManager.ReportedIffCalledBack | src/body_control/src/plugins/body_control/devices/motor/MotorDeviceManager.cpp:26-39 | A name counts as reported exactly if its motor called back since the last publication and since the last motor of that name was made |
| MotorDeviceManager.NeverEarlyIffNoneMadeLate | src/body_control/src/plugins/body_control/devices/motor/MotorDeviceManager.cpp:58-68 | Over every history, the manager is never ready while a motor in its table has delivered nothing, if and only if no motor with a key of its own is made once the manager is ready |
| MotorDeviceManager.ReadyIffAllDelivered | src/body_control/src/plugins/body_control/devices/motor/MotorDeviceManager.cpp:58-68 | If no motor is made late, the manager is ready at a callback or question exactly if every motor in its table has delivered a status |
| MotorDeviceManager.EveryMotorAwaited | src/body_control/src/plugins/body_control/devices/motor/MotorDeviceManager.h:26-26 | With the motors made first, readiness means in every run that every motor made has delivered a status, if and only if no two names share a 16-bit key |
| MotorDeviceManager.SharedKey | src/body_control/src/plugins/body_control/devices/motor/MotorDeviceManager.cpp:38-38 | Motors 1 and 65537: the manager is ready although the second has delivered nothing |
| MotorDeviceManager.AskedTooEarly | src/body_control/src/plugins/body_control/devices/motor/MotorDeviceManager.cpp:58-68 | Asked before any motor is made, the manager is ready for good, and publishes before a motor has delivered anything |
| MotorDeviceManager.Manager.New | src/body_control/src/plugins/body_control/devices/motor/MotorDeviceManager.cpp:13-40 | A new motor enters the tables, unless its key is taken, and has not reported |
| MotorDeviceManager.Manager.ReportStatus | src/body_control/src/plugins/body_control/devices/motor/MotorDeviceManager.cpp:16-28 | The status callback: append, mark, publish when due |
| MotorDeviceManager.Manager.ReportMiss | src/body_control/src/plugins/body_control/devices/motor/MotorDeviceManager.cpp:29-32 | The miss callback: mark, publish when due |
| MotorDeviceManager.Manager.CheckAndSendStatus | src/body_control/src/plugins/body_control/devices/motor/MotorDeviceManager.cpp:42-56 | Publishes and clears exactly when due |
| MotorDeviceManager.Manager.IsReady | src/body_control/src/plugins/body_control/devices/motor/MotorDeviceManager.cpp:58-68 | True once all motors in the table were ready at some question |
| MotorDeviceManager.Manager.Ask | src/body_control/src/plugins/body_control/devices/motor/MotorDeviceManager.cpp:58-68 | The same question from outside, which may latch the answer |
| MotorCommand.CommandArrives | src/body_control/src/plugins/body_control/devices/motor/MotorDevice.cpp:132-213 | For every command and motor type, the eight bytes give five codes in range, each standing for a value at or below the clamped one by less than one step |
| MotorCommand.QuantiseError | src/body_control/src/plugins/body_control/devices/motor/math_ops.cpp:39-44 | Clamp-then-quantise lands in range, and dequantising is low by less than span/(2^bits-1) |
| MotorCommand.QuantiseUndoes | src/body_control/src/plugins/body_control/devices/motor/math_ops.cpp:39-51 | Quantising undoes dequantising on every code |
| MotorCommand.QuantiseMonotone | src/body_control/src/plugins/body_control/devices/motor/math_ops.cpp:39-44 | Larger values never get smaller codes |
| MotorCommand.CtrlUnpacks | src/body_control/src/plugins/body_control/devices/motor/MotorDevice.cpp:203-210 | Codes that fit their fields come back from the eight bytes |
| MotorCommand.CtrlPacks | src/body_control/src/plugins/body_control/devices/motor/MotorDevice.cpp:203-210 | Every eight bytes with three leading zero bits are those of exactly one set of codes |
| MotorCommand.PositionUnpacksIffFit | src/body_control/src/plugins/body_control/devices/motor/MotorDevice.cpp:103-125 | Float, speed and current come back from a position command if and only if speed fits 15 bits and current 12 |
| MotorDevice.Device.SendMotorCtrlCmd | src/body_control/src/plugins/body_control/devices/motor/MotorDevice.cpp:132-213 | Adds the zero offset, clamps by motor type, quantises, packs and queues |
| MotorDevice.Device.OnRequest | src/body_control/src/plugins/body_control/devices/motor/MotorDevice.cpp:215-223 | Every command goes out once and in order; between commands the last one is repeated |
| MotorDevice.Device.OnResponse | src/body_control/src/plugins/body_control/devices/motor/MotorDevice.cpp:225-268 | Own id: status with the zero offset taken off; id zero: miss; others ignored |
| MotorDevice.Device.constructor | src/body_control/src/plugins/body_control/devices/motor/MotorDevice.cpp:59-94 | A new motor has the command to stand still queued |
| MotorDevice.OffsetCancels | src/body_control/src/plugins/body_control/devices/motor/MotorDevice.cpp:133-133 | A motor that sits at the commanded code reports the commanded position, low by less than one step, whatever its zero offset |

## Left out

- EthercatDc: `DCnext`, `DCprevious`, the group list and the system time offset written to the slaves; they do not enter the delays.
- EthercatDc.ConfigDc: does not model 32-bit wrap-around of receive times; the delay theorem is about true times.
- EthercatDelay.DelaysAreWalkTimes: is stated for trees in which every slave has a clock; the scan itself is modelled with clockless slaves too.
- CrcCompute.Crc: covers 16- and 32-bit registers; the 8-bit instance never ends its table loop, because an 8-bit counter stays below 256.
- The predefined CRC parameter sets: the theorems hold for all parameters.
- PacketFinder.PacketFinder.DataReceived: time stamps are left out, and the running index is unbounded inside and reported modulo 2^64.
- FinderRuns.FinderRefinesDecoder: speaks of streams in which every stretch from a point where nothing is open, through overlapping candidates and ASCII packets, to the next such point is shorter than the buffer; beyond that only `ReportsAreSlices`, `OneChunkIsDecoded` and `PacketFoundOnce` speak. The length limit on ASCII packets, which depends on chunks, is not used to shorten a stretch.
- VnBinary: the loop that counts set bits is a recursive count, and shifting a word right to test a bit is a mask test.
- VnComposite.PacketCursor: what the fields mean (floats, vectors, flags) and where they are stored is left out; fields keep their raw bytes.
- SdoRead.SdoRead: index, subindex and counter of the requests are left out; where the source would copy past the end of the buffer or copy a negative length, the model stops.
- SdoWrite.SdoWrite: aborts and unexpected answers are one outcome; error reporting and the mailbox read before the transfer are left out.
- EthercatDatagram.TxBuffer: is one of the sixteen transmit buffers; the Ethernet header is preset and untouched, and the interrupt field keeps what the buffer held.
- LockFreeQueue: one producer and one consumer; weak memory effects and the destructor are left out.
- FastConnection.Connection: handlers that throw, or that subscribe and shut down from within, are left out, as is the race of an in-place erase with a publisher in the middle of its loop.
- SoemMaster.Master: a cycle with fewer modes than slaves found (`Init` defaults to none) or with a registration outside the tables indexes out of range in the source and is not modelled; start-up, error counting and lost slaves are left out; a device may change its slot in `OnRequest` but not in `OnResponse`.
- TsinghuaHandDevice.Device: the three undefined top bits of the frame identifier are zero; status and touch-sensor responses are left out.
- MotorDeviceManager.Manager: the list of motors not ready and the temperature alarm are left out.
- MotorCommand: rounding of floats, motor types outside the four named ones (the torque range is then empty), and the bytes of a float are left out.
- Serial, socket, thread and ROS layers, configuration and logging: system calls and plumbing.
- `conversions.cpp`, `attitude.cpp` and the 16-bit floats: no exact law holds of them.
- ASCII register messages of the IMU and the readers and writers in `sensors.cpp`: repetitive field lists.
- `EyouMotorDevice`, `Channel.h`: drive state machines that depend on headers that are not part of this model, and a lock without defined behaviour.
