# Verified models of PX4 protocol, codec and layout code

This project models seven self-contained pieces of the PX4 repository in Dafny and proves
what they are for. Each model follows the code's own form: objects that update their fields are classes whose
methods are proved against functions on values, loops stay loops, and code made of
expressions is functions. The theorems are then about those functions, over every input,
every run or every reachable state. `dafny verify dfyconfig.toml` checks the whole project.

| part | files | main results |
|---|---|---|
| ULog over MAVLink: the vehicle's writer, the lossy link, the ground receiver | `UlogFormat`, `UlogReceiver`, `UlogReassembly`, `UlogRun`, `UlogSender`, `UlogEndToEnd` | `UlogRun.Reassembly`, `UlogEndToEnd.EndToEnd`, `UlogEndToEnd.ReliableSectionArrives`, `UlogEndToEnd.Lossless`, `UlogRun.DropAccounting` |
| MAVLink 1 codec and incremental parser | `MavlinkCodec`, `MavlinkParser` | `ChunkingIndependence`, `StreamRoundTrip`, `Conservation`, `NeverReadsPastAFrame` |
| Firmware uploader: CRC-32, padding, programming, verification | `Crc32Bits`, `Crc32Table`, `Crc32`, `Uploader` | `BurstDetected`, `Update`, `CoversExactly`, `Link.Program` |
| uORB struct padding, and the C layout of the result | `UorbLayout`, `CLayout` | `LayoutAgreement`, `UnpaddedAgrees`, `OnePadding`, `AddPaddingBytes` |
| Option parser | `Getopt` | `StableOrder`, `UsesByPosition`, `OptionEnumeration`, `StopsInTime`, `ReorderTwice` |
| Shutdown coordinator | `Shutdown` | `ShutdownIsSafe`, `FirstRequestStands`, `LockLimit`, `OneLockTooMany` |
| CAN boot descriptor | `Crc64`, `CanDescriptor` | `SelfCovering`, `WriteDescriptor`, `StoredCrcDetectsBursts`, `FoundIff` |

`Bytes` holds the sequence lemmas that the parts share.

How the hard ones are stated:

- **Reassembly.** A `Session` is a list of ULog frames and the positions at which the stream
  was cut into packets. `Run` feeds the receiver any sequence of packet indices, with loss,
  duplication and reordering, starting with packet 0, each less than 2^15 away from the newest
  one before. The file is then the header followed by whole frames, in an order that
  `FileItems` tells from the accepted packets alone: each accepted packet adds the report of
  the loss right before it, if the header section has ended, and then the frames written
  because of it. The frames of the log among them are, in order, exactly those every part of
  which was accepted, except that the last may still be held back, complete, in the pending
  bytes; `Held` says exactly when. `SenderIsHonest` proves that the logger's own MAVLink writer
  produces such sessions, whatever frames it is given and whatever acknowledgements it gets, so
  `EndToEnd` assumes nothing about offsets. "Every part was accepted" is about packets;
  `ArrivedMeansAllBytes` shows that it is the same as "all bytes were accepted" when no packet
  after the first is empty, as the writer guarantees.
- **Layout agreement.** `SizeOf` is an independent definition of the size a C compiler gives a
  type by natural alignment (section 6.7.2.1 of ISO/IEC 9899:2011), from the innermost struct
  outwards, starting from the widths of the declared C types; it knows neither the tool's size
  table nor the sizes that the tool computed. `LayoutAgreement` says of every
  message type that the compiler arrives at the size the tool returned and inserts nothing.
- **Codec.** `AcceptedIff`, `DecodedParts` and `PackedParts` say byte by byte which frames are
  accepted and what they hold, next to the round trips.
- **CRC-32.** `Crc` shifts bit by bit with the reflected polynomial 0xEDB88320, as in section 8
  of RFC 1952 but from state 0 and without complements. All 256 table entries are checked
  against it.
- **Options.** `Scan` reads the arguments from left to right. `StableOrder` ties it to a
  definition by position (`IsStart`, `IsArgument`, `Picked`), in which there is no scanning,
  and `UsesByPosition` does so for the options that are returned.
- **Programming.** The link keeps a trace of blocks sent and replies read, which determines the
  bytes sent and read; the bound of 512 outstanding reply bytes holds at every point of it.
- **Shutdown.** A run is any interleaving of lock, unlock, register, unregister, request and
  worker steps, with arbitrary hook answers at every step.

Where the code behaves differently from what one might expect, the model follows the code:

- The receiver applies the first packet's offset after it has cut off the 16-byte header, so
  reassembly needs offset 0 there; the writer always sends that.
- With no packet lost, bytes in front of the offset are thrown away when no frame is pending:
  `ConservesBytes` says exactly when nothing is lost.
- A loss of more than 25 packets is reported as 250 ms.
- The CAN descriptor writer pads by `length % 4`, which aligns the image exactly when its
  length is even (`AlignedIff`). It takes a descriptor at offset 0 for "not found", and
  it does not look at the last offset at which one would fit: `FoundIff`.
- `crc(padlen)` of the uploader covers `padlen` bytes exactly when the image fits and the
  difference is a multiple of four (`CoversExactly`).
- `px4_getopt` sets `myoptarg` to the current word when it was null, also for options without
  an argument; the enumeration theorem speaks of `myoptarg` only for options that take one.
- The lock counter has eight bits: `LockLimit` shows that all runs with at most `limit` locks
  held at a time are safe if and only if `limit` is at most 255, and `OneLockTooMany` that from
  every run with 255 locks held one more lets the next worker run stop the system.

## Model

| member | source | states |
|---|---|---|
| `UlogReceiver.ExactlyOneIsNewer` | Tools/mavlink_ulog_streaming.py:150-165 | of two distinct 16-bit sequence numbers exactly one is newer than the other, and the drop count bridges them modulo 2^16 |
| `UlogReceiver.WindowIsExact` | Tools/mavlink_ulog_streaming.py:150-165 | within 2^15 of the last accepted packet, the wrap-around comparison finds the true order and the true number of lost packets |
| `UlogReceiver.ConservesBytes` | Tools/mavlink_ulog_streaming.py:184-200 | with no loss, file and pending bytes grow by exactly the packet, if and only if a frame is pending, the offset is 0 or the packet is empty |
| `UlogReceiver.ReceivePacket` | Tools/mavlink_ulog_streaming.py:123-147 | a packet that is not newer changes nothing but the acknowledgements; a newer one sets the sequence number, adds the drops and is processed with them |
| `UlogReceiver.AckKeepsReception` | Tools/mavlink_ulog_streaming.py:113-121 | a COMMAND_ACK raises exactly when it refuses the start before the header section ended, and never touches sequence, counters, pending bytes or file |
| `UlogReceiver.LogStreaming.WriteMessages` | Tools/mavlink_ulog_streaming.py:203-212 | writes the longest run of whole frames at the front and returns the rest |
| `UlogReceiver.LogStreaming.ProcessStreamedData` | Tools/mavlink_ulog_streaming.py:168-200 | the new file, pending bytes and header flag are those of `Process`; fails, with nothing changed, exactly when the first packet is shorter than the header |
| `UlogReceiver.LogStreaming.HandleMessage` | Tools/mavlink_ulog_streaming.py:104-147 | one received message takes the object to `Receive` of its state, or raises where that has no value |
| `UlogReassembly.Flush` | Tools/mavlink_ulog_streaming.py:177-185 | after a loss the dropout is reported and the pending frame is written exactly when it is complete |
| `UlogReassembly.Tail` | Tools/mavlink_ulog_streaming.py:199-212 | writing from a frame start to the end of a packet logs exactly the frames that end in it and keeps the one in progress |
| `UlogReassembly.AfterLoss` | Tools/mavlink_ulog_streaming.py:183-189 | no frame that straddles lost packets counts as arrived, and those that ended before do |
| `UlogReassembly.Step` | Tools/mavlink_ulog_streaming.py:177-212 | the reassembly invariant is kept by every packet, after any loss, with or without a frame start, with or without a pending frame |
| `UlogRun.AcceptedIncrease` | Tools/mavlink_ulog_streaming.py:124-165 | the packets that the receiver takes for newer, knowing only the last 16-bit number, are exactly those newer than all before them, so accepted indices strictly increase |
| `UlogRun.DropAccounting` | Tools/mavlink_ulog_streaming.py:123-165 | over any run with loss, duplication and reordering, `num_dropouts` is (last index - first index) - (accepted - 1), and the receiver raises no exception |
| `UlogRun.EveryArrivalIsAcknowledged` | Tools/mavlink_ulog_streaming.py:126-130 | over any run, the acknowledgements sent are the sequence numbers of all reliable arrivals in order, duplicates included |
| `UlogRun.KeepsTrack` | Tools/mavlink_ulog_streaming.py:104-212 | every run keeps the invariant that ties file, pending bytes and reported losses to the packets accepted |
| `UlogReassembly.HeldAfter` | Tools/mavlink_ulog_streaming.py:191-200 | a complete frame stays pending if and only if it ended with a packet in which no frame starts |
| `UlogRun.Reassembly` | Tools/mavlink_ulog_streaming.py:104-212 | loss-tolerant reassembly: the file is the header and, item by item, the loss reports and whole frames that the accepted packets call for; the frames are in order exactly those accepted in every part, one of which may be held back complete |
| `UlogEndToEnd.RenderIsFrames` | Tools/mavlink_ulog_streaming.py:203-212 | what follows the header is a concatenation of well-formed ULog frames |
| `UlogEndToEnd.ArrivedMeansAllBytes` | Tools/mavlink_ulog_streaming.py:168-212 | when no packet after the first is empty, a frame arrived if and only if every byte of it was in an accepted packet |
| `UlogEndToEnd.Lossless` | Tools/mavlink_ulog_streaming.py:168-212 | with no loss, after every packet the file followed by the pending bytes is the concatenation of all payloads |
| `UlogEndToEnd.EndToEnd` | src/modules/logger/log_writer_mavlink.cpp:65-185 | for every log that the vehicle writes and every arrival pattern, the ground file is the reassembly of that log, frame by frame and byte by byte |
| `UlogEndToEnd.ReliableSectionArrives` | src/modules/logger/log_writer_mavlink.cpp:65-185 | when the packets of the reliable section were accepted, every frame written in it arrived, whatever is lost later |
| `UlogSender.SenderIsHonest` | src/modules/logger/log_writer_mavlink.cpp:88-185 | what the writer publishes is the header and the frames cut into non-empty packets, consecutively numbered modulo 2^16, with honest offsets |
| `UlogSender.MissingAckEndsLog` | src/modules/logger/log_writer_mavlink.cpp:141-177 | in every run no packet follows one whose acknowledgement is missing, and the log has stopped exactly when there is one |
| `UlogSender.SectionIsReliable` | src/modules/logger/log_writer_mavlink.cpp:118-138 | everything written before reliable mode is left goes out in packets that ask for an acknowledgement, with nothing left in the buffer |
| `UlogSender.LogWriterMavlink.PublishMessage` | src/modules/logger/log_writer_mavlink.cpp:130-185 | publishes the buffer with sequence, offset and kind; on a missing acknowledgement the log stops |
| `UlogSender.LogWriterMavlink.WriteMessage` | src/modules/logger/log_writer_mavlink.cpp:88-116 | marks the first frame start and cuts the frame into full buffers, as `Written` |
| `UlogSender.LogWriterMavlink.SetNeedReliableTransfer` | src/modules/logger/log_writer_mavlink.cpp:118-128 | leaving reliable mode first publishes what is buffered, still reliably |
| `MavlinkCodec.LeRoundTrip` | Tools/mavlink_px4.py:2361-2365 | little-endian bytes of a number give the number back |
| `MavlinkCodec.LeByteAt` | Tools/mavlink_px4.py:2361-2365 | byte k of a little-endian number has the weight 256^k |
| `MavlinkCodec.FieldRoundTrip` | Tools/mavlink_px4.py:2361-2365 | unpacking a packed field returns the value; a string returns at its field length |
| `MavlinkCodec.WireRoundTrip` | Tools/mavlink_px4.py:2361-2365 | packing an unpacked field returns its bytes |
| `MavlinkCodec.IntegerByteAt` | Tools/mavlink_px4.py:2361-2365 | byte k of an integer field is (v / 256^k) modulo 256, also for negative values (two's complement) |
| `MavlinkCodec.TextByteAt` | Tools/mavlink_px4.py:2361-2365 | a string field holds the string, then NULs |
| `MavlinkCodec.PaddingIsInvisible` | Tools/mavlink_px4.py:2208-2216 | a string that fits its field shows the same text after padding with NULs |
| `MavlinkCodec.PayloadRoundTrip` | Tools/mavlink_px4.py:2361-2365 | unpacking a packed payload returns every field, for every format |
| `MavlinkCodec.PackedAt` | Tools/mavlink_px4.py:2361-2365 | the fields lie one after the other, in format order |
| `MavlinkCodec.UnpackedAt` | Tools/mavlink_px4.py:2361-2365 | each value is decoded from the bytes at its place |
| `MavlinkCodec.PermutationRoundTrip` | Tools/mavlink_px4.py:2367-2372 | `order_map` undoes the reordering to the wire, both ways |
| `MavlinkCodec.Reorder` | Tools/mavlink_px4.py:2367-2372 | the loop puts field `order_map[i]` at place `i` |
| `MavlinkCodec.DecodeMessage` | Tools/mavlink_px4.py:2332-2388 | computes `Decode`, which the next three rows characterise byte by byte |
| `MavlinkCodec.AcceptedIff` | Tools/mavlink_px4.py:2332-2365 | a frame is accepted if and only if magic, length, known id, payload size and the checksum over all but the magic byte are right |
| `MavlinkCodec.RejectedWhy` | Tools/mavlink_px4.py:2332-2365 | otherwise it is BAD_DATA, and each reason is reported exactly when its check is the first to fail |
| `MavlinkCodec.DecodedParts` | Tools/mavlink_px4.py:2335-2388 | the header fields, payload and constructor fields of an accepted message come from exactly these bytes |
| `MavlinkCodec.CodecRoundTrip` | Tools/mavlink_px4.py:101-111 | decoding a packed message returns its header, fields, payload and checksum, whatever the checksum function is |
| `MavlinkCodec.PackedParts` | Tools/mavlink_px4.py:37-39 | a packed message is 254, length, sequence, system, component, id, payload and the little-endian checksum |
| `MavlinkCodec.FieldsComeBack` | Tools/mavlink_px4.py:2361-2372 | field by field, in constructor order, the decoded message equals the one sent |
| `MavlinkParser.PiecesSplit` | Tools/mavlink_px4.py:2274-2330 | cutting a stream in two parts gives the pieces and the rest of cutting it at once |
| `MavlinkParser.PiecesConserve` | Tools/mavlink_px4.py:2281-2303 | the pieces and the rest are the stream, and no complete piece is left over |
| `MavlinkParser.ChunkingIndependence` | Tools/mavlink_px4.py:2274-2330 | however a stream is split into chunks, the messages, the buffer and all counters are the same |
| `MavlinkParser.Conservation` | Tools/mavlink_px4.py:2280-2316 | raw bytes of all messages followed by the buffer are the bytes received, and each message is counted once, as packet or error |
| `MavlinkParser.StreamRoundTrip` | Tools/mavlink_px4.py:2274-2388 | messages sent with any noise and any damaged frames between them, read in any chunks, come back in order and are counted as received; each noise byte and each damaged frame comes back as one BAD_DATA and is counted as an error; the buffer ends empty |
| `MavlinkParser.NeverReadsPastAFrame` | Tools/mavlink_px4.py:2267-2272 | after any drain, reading `bytes_needed` more bytes passes no frame's end |
| `MavlinkParser.NeedsExactly` | Tools/mavlink_px4.py:2267-2272 | inside a frame whose length byte has arrived, `bytes_needed` is exactly what is missing of it; before, what is missing of a header |
| `MavlinkParser.FeedAfterStep` | Tools/mavlink_px4.py:2319-2330 | taking one message and then draining is draining, and the buffer shrinks |
| `MavlinkParser.Mavlink.ParseChar` | Tools/mavlink_px4.py:2274-2317 | takes at most one piece off the front and counts it, with the expected length that follows |
| `MavlinkParser.Mavlink.ParseBuffer` | Tools/mavlink_px4.py:2319-2330 | returns all messages of buffer and input, `None` when there is none, and leaves the rest |
| `MavlinkParser.Mavlink.NeededBytes` | Tools/mavlink_px4.py:2267-2272 | what is missing of the expected length, at least 1 |
| `MavlinkParser.Mavlink.Wire` | Tools/mavlink_px4.py:536-539 | every constructor field at its place on the wire, the inverse of `order_map` |
| `MavlinkParser.Mavlink.Send` | Tools/mavlink_px4.py:2259-2265 | appends the packed message to the stream and counts it; sequence numbers run modulo 255 |
| `Crc32Table.CrcTab` | Tools/px_uploader.py:83-115 | each of the 256 entries is its index shifted eight times |
| `Crc32.TableByteIsCrcByte` | Tools/px_uploader.py:134-138 | one table step is eight bit steps, from every state |
| `Crc32.Update` | Tools/px_uploader.py:134-138 | the table-driven loop computes the bit-at-a-time CRC of every byte sequence from every state |
| `Crc32.CrcConcat` | Tools/px_uploader.py:134-144 | the CRC of a concatenation continues from the CRC of its first part |
| `Crc32.CrcInjective` | Tools/px_uploader.py:134-138 | different states stay different through the same bytes |
| `Crc32.CrcOfWord` | Tools/px_uploader.py:134-138 | up to four bytes pass through the register as one word |
| `Crc32.BurstDetected` | Tools/px_uploader.py:134-144 | sequences of equal length that differ only within four consecutive bytes have different CRCs |
| `Uploader.CoversExactly` | Tools/px_uploader.py:140-144 | `crc(padlen)` covers `padlen` bytes if and only if the image fits and the difference is a multiple of 4 |
| `Uploader.Firmware.constructor` | Tools/px_uploader.py:125-129 | the image is extended with 0xff to the next multiple of 4 |
| `Uploader.Firmware.CrcOver` | Tools/px_uploader.py:140-144 | the CRC of the image extended with 0xff to the length covered |
| `Uploader.Firmware.Verify` | Tools/px_uploader.py:529-541 | accepts exactly the CRC of the extended image |
| `Uploader.VerifyDetectsBursts` | Tools/px_uploader.py:529-541 | a flash that is damaged within four consecutive bytes reports another CRC than the one expected |
| `Uploader.SplitLength` | Tools/px_uploader.py:478-479 | the pieces concatenate to the sequence |
| `Uploader.BlockSizes` | Tools/px_uploader.py:478-479 | every piece is non-empty, at most the limit, full but for the last, and whole words for whole words |
| `Uploader.Link.AckWindow` | Tools/px_uploader.py:281-294 | succeeds if and only if that many reply bytes arrive and every pair is INSYNC, OK |
| `Uploader.AckedBytes` | Tools/px_uploader.py:286-294 | blocks are acknowledged exactly when the reply bytes alternate 0x12, 0x10 |
| `Uploader.Link.ProgramMulti` | Tools/px_uploader.py:424-445 | sends one block command; without a window its reply is checked at once |
| `Uploader.FlashedIsImage` | Tools/px_uploader.py:424-434 | a bootloader that reads command by command puts exactly the image into flash, from blocks that are non-empty and at most 252 bytes |
| `Uploader.UploadVerifies` | Tools/px_uploader.py:482-541 | after programming a padded image into erased flash, the CRC reported is the one `__verify_v3` expects |
| `Uploader.Link.Program` | Tools/px_uploader.py:482-510 | returns normally if and only if every block is acknowledged, having checked each reply once; then the bytes sent put exactly the image into flash; however it ends, at every point of the trace of blocks sent and replies read at most 512 reply bytes are outstanding |
| `UorbLayout.SortIsSorted` | msg/tools/px_generate_uorb_topic_helper.py:148-155 | fields are ordered by descending size, embedded types last |
| `UorbLayout.SortKeepsAll` | msg/tools/px_generate_uorb_topic_helper.py:148-155 | sorting is a permutation |
| `UorbLayout.SortIsStable` | msg/tools/px_generate_uorb_topic_helper.py:148-155 | fields of one size keep their declared order |
| `UorbLayout.GeneratedSize` | msg/tools/px_generate_uorb_topic_helper.py:158-206 | the returned size is the builtin bytes rounded up to 8 plus the embedded structs, a multiple of 8 |
| `UorbLayout.OnePadding` | msg/tools/px_generate_uorb_topic_helper.py:164-206 | at most one padding field, of 1 to 7 bytes, is added; the fields survive in order |
| `UorbLayout.PaddingName` | msg/tools/px_generate_uorb_topic_helper.py:181-182 | a padding field is named `_padding` and its number in decimal digits |
| `UorbLayout.PadTight` | msg/tools/px_generate_uorb_topic_helper.py:164-206 | every field starts at a multiple of its natural alignment, directly after the one before |
| `UorbLayout.StructAgrees` | msg/tools/px_generate_uorb_topic_helper.py:158-206 | one generated struct, whose members have the sizes the tool computed for them, has the returned size without compiler padding |
| `CLayout.SizesAgree` | msg/tools/px_generate_uorb_topic_helper.py:95-108 | the size table is right for the C types of the type map, by their widths in bits |
| `CLayout.ScalarSizes` | msg/tools/px_generate_uorb_topic_helper.py:95-108 | the twelve sizes in numbers |
| `CLayout.LayoutAgreement` | msg/tools/px_generate_uorb_topic_helper.py:158-206 | for every message type, the size that C's rules give, computed from the widths of the declared C types and from the innermost struct outwards, is the size the tool returned, a multiple of 8, and no compiler padding is inserted |
| `CLayout.UnpaddedAgrees` | msg/tools/px_generate_uorb_topic_helper.py:164-165 | with a 64-bit member in every struct, the structs without any padding fields, at every depth, have the same C sizes and alignments: 8 is the right alignment |
| `UorbLayout.InsertPadding` | msg/tools/px_generate_uorb_topic_helper.py:178-187 | inserts exactly the bytes up to the next multiple of 8 in front of an item, or nothing |
| `UorbLayout.FieldBytes` | msg/tools/px_generate_uorb_topic_helper.py:171-192 | the bytes of a field, for an embedded type from its own layout |
| `UorbLayout.AddPaddingBytes` | msg/tools/px_generate_uorb_topic_helper.py:158-206 | the in-place loop leaves the padded list and returns size and end padding of `Generated` |
| `Getopt.IsValidOpt` | platforms/common/px4_getopt.c:43-61 | by index: at its first place in the option string an option is known and takes an argument exactly when a colon stands right behind it; otherwise '?' |
| `Getopt.OptionByCharacter` | platforms/common/px4_getopt.c:74-75 | a word is an option by its dash, and the character behind the dash names it |
| `Getopt.UnknownByCharacter` | platforms/common/px4_getopt.c:74-79 | a character that is not in the option string is an unknown option |
| `Getopt.ReorderedIsPermutation` | platforms/common/px4_getopt.c:64-128 | reordering is a permutation |
| `Getopt.BackHasNoOptions` | platforms/common/px4_getopt.c:98-120 | behind the options no word starts with a dash |
| `Getopt.ReorderTwice` | platforms/common/px4_getopt.c:64-128 | a second reordering changes nothing and finds the same options |
| `Getopt.StableOrder` | platforms/common/px4_getopt.c:64-128 | succeeds if and only if every option is known and has its argument; then options with arguments come first, and both groups keep their order |
| `Getopt.CollectOptions` | platforms/common/px4_getopt.c:72-96 | the first loop fails exactly when the scan does, and otherwise fills the front |
| `Getopt.CollectOthers` | platforms/common/px4_getopt.c:98-120 | the second loop fills every remaining temporary slot |
| `Getopt.Reorder` | platforms/common/px4_getopt.c:64-128 | in place: the reordered vector on success, the vector unchanged on failure, nothing outside the arguments touched |
| `Getopt.GetOpt` | platforms/common/px4_getopt.c:144-187 | one call, with every index within the null-terminated vector |
| `Getopt.StopsInTime` | platforms/common/px4_getopt.c:144-187 | for every vector, also one that cannot be reordered, calling until -1 stops within `argc` calls |
| `Getopt.UsesByPosition` | platforms/common/px4_getopt.c:72-96 | the options found are those at positions where an option starts, in order, each with the word after it as argument when it takes one |
| `Getopt.OptionEnumeration` | platforms/common/px4_getopt.c:144-187 | when every option is known and has its argument, from `myoptind` 1 the calls return exactly the options that start at some position with their arguments, in original order, then -1 at the first non-option |
| `Getopt.BadVectorRejected` | platforms/common/px4_getopt.c:150-155 | with an unknown option or a missing argument anywhere, the first call answers '?', moves on by one and leaves the vector alone |
| `Getopt.LaterCall` | platforms/common/px4_getopt.c:157-187 | what a later call returns and where it moves, told from the characters of the current word |
| `Shutdown.StepKeepsInvariant` | platforms/common/shutdown.cpp:59-245 | every possible step keeps: counter equals locks held, request bits are the first request's, scheduled while pending, runs counted |
| `Shutdown.RunKeepsInvariant` | platforms/common/shutdown.cpp:59-245 | the invariant holds after every interleaving |
| `Shutdown.ShutdownIsSafe` | platforms/common/shutdown.cpp:179-210 | the system stops only with all hooks done and no lock held or on timeout; at most 501 worker runs; a pending shutdown stays scheduled |
| `Shutdown.FirstRequestStands` | platforms/common/shutdown.cpp:212-245 | the first accepted request's reboot and bootloader choice is never changed |
| `Shutdown.LocksBeyondTheCounter` | platforms/common/shutdown.cpp:59-69 | with n locks held and no hook registered, a reboot request stops the system at once if and only if n is a multiple of 256 |
| `Shutdown.OneLockTooMany` | platforms/common/shutdown.cpp:59-69 | from every run with 255 locks held, one more lock lets the next worker run stop the system without a timeout |
| `Shutdown.LockLimit` | platforms/common/shutdown.cpp:59-210 | on a board that can stop, all runs with at most `limit` locks held are safe if and only if `limit` is at most 255 |
| `Shutdown.RegisteredHookIsAsked` | platforms/common/shutdown.cpp:145-159 | once a hook has a slot, the worker finds all hooks done if and only if the earlier ones and this one are done |
| `Shutdown.UnregisterUndoes` | platforms/common/shutdown.cpp:161-175 | unregistering undoes registering |
| `Shutdown.Coordinator.Lock` | platforms/common/shutdown.cpp:59-69 | the counter goes up by one, modulo 256 |
| `Shutdown.Coordinator.Unlock` | platforms/common/shutdown.cpp:71-87 | the counter goes down unless it is zero, which is reported |
| `Shutdown.Coordinator.RegisterHook` | platforms/common/shutdown.cpp:145-159 | takes the first free slot, or fails when there is none |
| `Shutdown.Coordinator.UnregisterHook` | platforms/common/shutdown.cpp:161-175 | frees the first slot that holds the hook, or fails |
| `Shutdown.Coordinator.Worker` | platforms/common/shutdown.cpp:179-210 | stops the system, or counts the run and schedules the next |
| `Shutdown.Coordinator.ShutdownRequest` | platforms/common/shutdown.cpp:212-245 | refused when the board cannot do it, ignored while one is in progress, otherwise the worker runs with the bits set |
| `Crc64.Compute` | Tools/make_can_boot_descriptor.py:149-170 | the nested loops compute the CRC-64 (polynomial of ECMA-182, all-ones start and final complement) |
| `Crc64.PolynomialIs` | Tools/make_can_boot_descriptor.py:151-152 | the polynomial's exponents are those of ECMA-182, and the start value is all ones |
| `Crc64.CheckValue` | Tools/make_can_boot_descriptor.py:149-170 | the CRC of the digits 1 to 9 is the published check value |
| `Crc64.FeedInjective` | Tools/make_can_boot_descriptor.py:160-168 | different register states stay different through the same bytes |
| `Crc64.BurstDetected` | Tools/make_can_boot_descriptor.py:149-170 | sequences of equal length that differ only within eight consecutive bytes have different CRCs |
| `CanDescriptor.UnpackPack` | Tools/make_can_boot_descriptor.py:53-65 | unpacking a packed descriptor returns it |
| `CanDescriptor.PackUnpack` | Tools/make_can_boot_descriptor.py:53-65 | packing an unpacked descriptor returns its bytes |
| `CanDescriptor.PackSlices` | Tools/make_can_boot_descriptor.py:53-57 | which bytes of a packed descriptor hold which field |
| `CanDescriptor.U64Digits` | Tools/make_can_boot_descriptor.py:53-57 | byte k of a 64-bit field has the weight 256^k |
| `CanDescriptor.U32Digits` | Tools/make_can_boot_descriptor.py:53-57 | byte k of a 32-bit field has the weight 256^k |
| `CanDescriptor.DescriptorByBytes` | Tools/make_can_boot_descriptor.py:59-77 | a descriptor can be read exactly where the eight signature bytes stand, the six reserved bytes are 0xff, and CRC and size bytes are both zero or both not |
| `CanDescriptor.AlignedIff` | Tools/make_can_boot_descriptor.py:184-188 | the padding aligns the image to four bytes if and only if its length is even |
| `CanDescriptor.SelfCovering` | Tools/make_can_boot_descriptor.py:135-170 | the stored size is the number of bytes written, the stored CRC is that of exactly those bytes with its field zeroed, and only the descriptor changed |
| `CanDescriptor.OnlyCrcAndSizeChange` | Tools/make_can_boot_descriptor.py:127-147 | with the descriptor found in the image, only its CRC and size bytes change |
| `CanDescriptor.DescribeTwice` | Tools/make_can_boot_descriptor.py:135-147 | describing a described image with its own descriptor changes neither image nor descriptor |
| `CanDescriptor.StoredCrcDetectsBursts` | Tools/make_can_boot_descriptor.py:149-170 | when the covered bytes are damaged within eight consecutive bytes, their CRC is not the stored one |
| `CanDescriptor.FoundIff` | Tools/make_can_boot_descriptor.py:193-217 | byte by byte: one is found if and only if some readable descriptor ends before the last byte, padding included, and none is at offset 0; it is the first one |
| `CanDescriptor.Search` | Tools/make_can_boot_descriptor.py:201-212 | the loop stops at the first offset at which a descriptor can be read |
| `CanDescriptor.FirmwareImage.Length` | Tools/make_can_boot_descriptor.py:176-191 | length and padding, computed once |
| `CanDescriptor.FirmwareImage.DescriptorOffset` | Tools/make_can_boot_descriptor.py:193-217 | the cached offset, or the one the search finds, or an exception |
| `CanDescriptor.FirmwareImage.AppDescriptor` | Tools/make_can_boot_descriptor.py:219-231 | the cached descriptor, or the one read at the offset found |
| `CanDescriptor.FirmwareImage.Crc` | Tools/make_can_boot_descriptor.py:149-170 | the CRC-64 of what will be written with the CRC field zeroed |
| `CanDescriptor.FirmwareImage.WriteDescriptor` | Tools/make_can_boot_descriptor.py:135-147 | succeeds if and only if a descriptor is found and the size fits 32 bits; then the contents are `Described` and complete, otherwise unchanged; a call on a complete image, such as a second call, succeeds and changes nothing |
| `CanDescriptor.FirmwareImage.Exit` | Tools/make_can_boot_descriptor.py:116-122 | writes the contents and then the padding, bytes of 0xff |

## Left out

- Serial ports, UDP, timeouts, sleeps, heartbeats, progress bars and printing: packets, replies and acknowledgements are inputs, file writes are appends.
- The start timeout of the log receiver. The run theorems are about data packets; `AckKeepsReception` shows that a COMMAND_ACK between them changes nothing they speak of.
- UlogRun.Reassembly: only for runs in which packet 0 arrives first, since the receiver takes the first 16 bytes it sees for the header, and in which no arrival is 2^15 or more away from the newest one.
- The vehicle's own acknowledgement protocol is one answer per packet; retransmission of a packet is a duplicate arrival.
- The X.25 checksum of MAVLink comes from a library that is not part of this model; it is an arbitrary function of the bytes and the extra byte.
- `mavlink_map`: the message table is a parameter of scalar formats with a valid field order; its 82 literal entries are not spelled out, and the two swarm messages with array formats do not fit the shape.
- MAVLink exception mode, callbacks, the per-message encode and send wrappers, floating-point encodings (floats are their bytes).
- MavlinkParser.Mavlink.Wire: in the source every message class lists its fields in wire order by hand; the model computes that order from `order_map`.
- The bootloader is not part of the repository's tool: `Flashed` is how it reads the commands by the protocol.
- `__verify_v2`, erase, reboot and the board description of the uploader, and the difference between its Python 2 and 3 byte strings.
- Header fields, variable-length arrays and the loading of message files by `genmsg`: a message type is the finite tree of its definitions, and type names are already parsed.
- The check-and-set of the shutdown request is outside the mutex in the source; the model takes it as one step.
- The shutdown build without work queues, mutex errors, and what a board does when it is reset.
- Reading and writing positions of the firmware image buffer, its write flag, git, the command line and the report of the CAN descriptor tool.
- CanDescriptor.FirmwareImage.WriteDescriptor: when the size does not fit, the descriptor object in memory keeps its old size, since the field has 32 bits.
- The documentation and airframe parsers, RTPS generators, estimator, calibration and plotting scripts, and driver headers.
