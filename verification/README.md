# Camera board and desktop client: a Dafny model

The repository is a camera board (C) and its desktop client (C++ and Python). This project models the three parts of it
in which most of the state, branching and arithmetic lives, and proves what they promise.

**Framing.** The board cuts a blob into packets of at most 1400 bytes, each behind a 32-byte little-endian header with a
CRC16. The receivers find the packets in a TCP stream or in UDP datagrams and put the blobs together again.
`Crc`, `CrcTable`, `CrcDetection`, `CrcBursts` (the two checksum algorithms and what the checksum detects), `Frame` (the
header), `Packets` (both senders), `Reassembly` and `TcpStream` (the desktop's TCP receiver), `TcpEndToEnd` (blobs to
bytes to blobs over a connection that may fail), `TcpSession` (several connections), `UdpReceiver`, `UdpDispatch`
(exactly when a frame is dispatched, and how often), `UdpReordering` (what is given up, and how much reordering a frame
survives), `PyReceiver` (exactly when an image is shown), `CutDatagrams`.

**The message bus.** A queue of 32 messages with one delivering thread, plain or ordered by priority (`StableQueue`,
`MsgQueue`, `QueueRuns`), and three ownership protocols on it: a ring of 64 copies behind the log messages (`LogRing`),
reference counters on the two camera buffers (`Camera`, `CameraOffers`), and tokens for large transfers that travel from
a source to the TCP sender and back (`BigData`, `BigDataSteps`, `BigDataReturn`, `BigDataWake`, `BigDataBoard`). Each
protocol is a system of steps: a lock region or a thread's action between two lock regions is one step, and the theorems
are about every sequence of steps, that is, every interleaving.

**JSON.** The parser, the printer and the list surgery of cJSON: `Utf16` (escapes), `JsonString`, `JsonNumber`,
`JsonValue` (values and the text of a value), `JsonParse` (what the parser answers, as functions of the remaining
input), `JsonParser` and `JsonPrinter` (the code that moves a cursor over the input and writes into a growing buffer),
`JsonCompare` and `JsonEquality` (comparison, duplication), `JsonInfinity` (numbers out of range), `JsonList` (the
linked list of children). What a text means is said a second time, without reference to the parser: `JsonSpelling`
(every way to spell a character), `JsonNumeral` (numerals by the places of their digits), `JsonSyntax` (written values,
with white space in every gap). `JsonComplete` proves that the parser reads every written value as what it means,
`JsonSound` that it accepts nothing else, `JsonErrors` where it reports an error, `JsonDocument` what may stand around
a value, and `JsonLayout` which of the written values the printer writes. `JsonRoundTrip` and `JsonReprint` put
printing and parsing together.

Code that changes state in place is modelled by classes with the same fields, and each of their methods is proved
against a function of the old state. The theorems are about those functions.

## Where the code does not do what one might expect

- A blob of more than 65535 * 1400 bytes is cut short, or not sent at all: the packet count is stored in 16 bits.
  `Packets.SplitJoin` and `TcpEndToEnd.DeliveredWholeIff` give the exact bound, `Packets.PacketCount` the number of
  packets sent for every length: none in the last 1399 lengths below 2^32.
- The UDP receiver can dispatch a frame more than once, so frame ids do not strictly increase. Any blob whose datagrams
  all arrive twice is dispatched twice (`UdpDispatch.RepeatedFrameDispatchedTwice`). A frame is dispatched again exactly
  when, after its dispatch, all its packets arrive again while it is not stale and without being evicted in between
  (`UdpDispatch.DispatchedIff`). Frame ids strictly increase exactly when this happens to no frame
  (`UdpDispatch.StrictIff`), in particular when the network repeats no packet (`UdpDispatch.NoRepetitionStrict`).
- An incomplete frame is given up when more than three frames are pending and a packet arrives from more than three
  frames ahead (`UdpReordering.OtherFrames`). For frame ids below 3 the bound wraps around in 32 bits, and then a packet
  can make the receiver give up the earlier packets of its own frame (`UdpReordering.OwnFrame`).
- The packets of a frame are counted, not checked: any two different indices complete a frame announced with two packets
  (`UdpReordering.CountedNotChecked`). No sender of the system makes use of that.
- A datagram that was cut behind its header is dropped by the desktop, and taken for whole by the Python receiver
  (`CutDatagrams.DesktopDropsCut`, `CutDatagrams.PythonShowsCut`).
- After the frame counter of the board has wrapped, the TCP receiver takes every frame for stale, except those with the
  last frame id, until the next connection. `TcpEndToEnd.EndToEnd` says exactly which blobs arrive.
- The checksum does not detect every corruption. A corrupted header still passes the test if and only if no bit of the
  magic number is flipped and the flipped bits, taken as a header, match their own checksum
  (`Frame.HeaderCorruptionUnnoticedIff`); for flips in the covered bytes, if and only if their checksum is zero
  (`CrcDetection.CoveredCorruptionUnnoticedIff`). A burst spanning at most sixteen positions of the covered bytes is
  always detected (`CrcBursts.SixteenBitsDetected`); one spanning seventeen can go unnoticed, in every valid header
  (`CrcBursts.SeventeenPositionsUnnoticed`).
- The TCP sending thread, when it wakes by timeout without work and without a connection, looks at the slot, reconnects
  without the lock, and then asks only whether there is something to send. Two things can go wrong, and as long as
  neither has, such wakes leave no trace (`BigDataWake.SoundRunIsOrdinary`). The look fails if and only if the slot is
  free and the last accepted transfer was a large one: there is no token to look at (`BigDataWake.LookFaultsIff`). And a
  token is stranded if and only if it was accepted between the look and a successful reconnect
  (`BigDataWake.StrandedIff`): the thread sends what it saw, frees the slot, and does not report the token
  (`BigDataWake.StrandedForGood`). Both happen (`BigDataWake.LookCanFault`, `BigDataWake.TokensAreStranded`).
- An escape without four hexadecimal digits is read as the zero character, which ends the string (`JsonSpelling.Means`,
  `JsonSyntax.Meaning`). Zeros count as white space: with a terminator demanded, the parser accepts any number of them
  and ends at the last character of the text (`JsonDocument.TerminatedIff`). A byte order mark is an error in front of
  fewer than two characters (`JsonDocument.MarkMovesText`).
- Appending a node that still has a successor to a non-empty list of children does not give a list
  (`JsonList.AddItemToArray`).
- A value need not compare equal to its duplicate, for two reasons. Only the first member of a name is ever found, so an
  object with a repeated key can differ from itself (`JsonCompare.RepeatedKeyNotEqualToItself`); repeating a member
  unchanged does no harm (`JsonCompare.RepeatedMemberEqualToItself`). And an infinite or undefined number is not within
  the tolerance of itself: the text `1e999` is parsed to such a value (`JsonInfinity.TooLargeParses`,
  `JsonInfinity.InfinityIsNotItself`), which compares equal to every finite number instead. With distinct keys a value
  equals its duplicate if and only if all its numbers are finite (`JsonCompare.CompareDuplicate`). With repeated keys it
  does if and only if every member whose value is not that of the first member of its name compares equal to that one,
  and all numbers outside such members are finite (`JsonCompare.CompareDuplicateIff`).
- An infinite or undefined number is printed as a null, so a value comes back from its text if and only if its numbers
  are finite (`JsonReprint.PrintThenParseAny`).
- The documentation of `cJSON_PrintPreallocated` asks for five spare bytes; the code needs exactly two, one of them for
  the terminating zero (`JsonPrinter.PrintPreallocated`).

## Model

| member | source | states |
|---|---|---|
| Crc.Crc16Xmodem | QT/Desktop/src/protocol.cpp:8-21 | the nested loops compute the checksum that all other statements are about |
| Crc.Crc16Plus | QT/Desktop/src/protocol.cpp:8-21 | the checksum of the bitwise difference of two messages is the bitwise difference of their checksums |
| CrcTable.Crc16Ccitt | src/crc/crc.c:47-53 | the table-driven loop returns the checksum of the bit-by-bit loop, for every byte string |
| CrcTable.TableEntry | src/crc/crc.c:6-39 | each of the 256 table entries is eight bit steps of its index placed in the high byte |
| CrcTable.TableStepIsFeedByte | src/crc/crc.c:50 | one step of the table-driven loop equals the eight bit steps of the other algorithm, for every register value and byte |
| CrcDetection.ParityOfCrc | QT/Desktop/src/protocol.cpp:8-21 | the number of set bits of the checksum has the parity of the number of set bits of the message |
| CrcDetection.IntactHasEvenParity | QT/Desktop/src/protocol.cpp:44-45 | a message followed by its own checksum has an even number of set bits |
| CrcDetection.OddFlipsDetected | QT/Desktop/src/protocol.cpp:50-57 | an odd number of flipped bits, the checksum included, always breaks the match |
| CrcDetection.BurstDetected | QT/Desktop/src/protocol.cpp:50-57 | a non-empty burst of at most sixteen bits in the covered bytes always breaks the match |
| CrcDetection.CorruptionUnnoticedIff | QT/Desktop/src/protocol.cpp:50-57 | a corrupted message still matches its checksum if and only if the flipped bits match theirs, for flips anywhere |
| CrcDetection.CoveredCorruptionUnnoticedIff | QT/Desktop/src/protocol.cpp:50-57 | for flips in the covered bytes: if and only if their checksum is zero |
| CrcDetection.SeventeenBitBurstUndetected | QT/Desktop/src/protocol.cpp:8-21 | the polynomial laid over three bytes, wherever it stands, has checksum zero |
| CrcBursts.SixteenIsBurst | QT/Desktop/src/protocol.cpp:50-57 | flipped bits within sixteen consecutive bit positions, wherever these lie relative to byte boundaries, form such a burst |
| CrcBursts.SixteenBitsDetected | QT/Desktop/src/protocol.cpp:50-57 | flipping bits within sixteen consecutive positions of the thirty covered bytes makes a valid header invalid |
| CrcBursts.SeventeenPositionsUnnoticed | QT/Desktop/src/protocol.cpp:50-57 | sixteen is the limit: every valid header stays valid, and is changed, under one and the same burst spanning seventeen positions |
| Frame.BuildFrameHeader | QT/Desktop/src/protocol.cpp:29-48 | the header is the little-endian layout of its fields followed by the checksum of the first thirty bytes |
| Frame.ValidateFrameHeader | QT/Desktop/src/protocol.cpp:50-57 | accepts exactly the magic number together with a matching checksum |
| Frame.HeaderRoundTrip | QT/Desktop/src/protocol.cpp:29-57 | a header built from any field values is accepted and read back unchanged, whatever bytes follow |
| Frame.HeaderLayout | QT/Desktop/src/protocol.cpp:29-57 | every field byte by byte: its offset, lowest byte first; CD AB in front and the checksum of the first thirty bytes behind are exactly the test |
| Frame.ReservedAreZero | QT/Desktop/src/protocol.cpp:33-43 | the six reserved bytes of a built header are zero |
| Frame.HeaderOddFlipsDetected | QT/Desktop/src/protocol.cpp:50-57 | an odd number of flipped bits anywhere in the 32 bytes of a valid header makes it invalid |
| Frame.HeaderBurstDetected | QT/Desktop/src/protocol.cpp:50-57 | the same for a burst of at most sixteen bits in the covered bytes |
| Frame.HeaderCorruptionUnnoticedIff | QT/Desktop/src/protocol.cpp:50-57 | a corrupted header passes the test if and only if the magic number is untouched and the flips match their own checksum |
| Packets.BoardHeader | src/net/tcp_send.c:293-301 | the board builds the header of the same fields with its table-driven checksum, and it is the header the desktop expects |
| Packets.TcpSender.TcpSendAll | src/net/tcp_send.c:213-238 | the loop over partial sends writes all bytes or fails, having written as many as the connection took |
| Packets.TcpSender.TcpSendPacket | src/net/tcp_send.c:247-258 | writes the header and then the payload, up to the point where the connection fails |
| Packets.TcpSender.TcpSendFrame | src/net/tcp_send.c:270-310 | the loop writes the packets of the blob, in order and nothing else, and reports failure exactly if the connection did not take them all |
| Packets.TcpSender.SendCycle | src/net/tcp_send.c:393-412 | a successful cycle writes one frame and advances the frame id, which wraps in 32 bits; a failed one leaves it and loses the connection |
| Packets.UdpSender.UdpSendFrame | src/net/udp_send.c:115-142 | one datagram per packet, in order, then the frame id advances |
| Packets.SplitJoin | src/net/tcp_send.c:280-287 | cutting and joining gives the blob back if and only if it has at most 65535 * 1400 bytes |
| Packets.PacketCount | src/net/tcp_send.c:280-282 | the number of packets of every length: rounded up, less the multiples of 65536 the field loses, and none where rounding up wraps around |
| Reassembly.Reassembler.Reset | QT/Desktop/src/net/Tcp_ControlWorker.cpp:63-65 | a new connection starts with no pending frame and no last frame id, and keeps what was dispatched |
| Reassembly.Reassembler.CleanExpiredFrames | QT/Desktop/src/net/Tcp_ControlWorker.cpp:169-180 | with more than three pending frames, exactly those below the current id minus three, in wrapping 32-bit arithmetic, are evicted |
| Reassembly.Reassembler.AcceptPacket | QT/Desktop/src/net/Tcp_ControlWorker.cpp:146-165 | the effect of one packet: stale frames ignored, single packets dispatched, others stored and dispatched joined once complete |
| TcpStream.TcpControlWorker.OnNewConnection | QT/Desktop/src/net/Tcp_ControlWorker.cpp:62-65 | the stream buffer and the reassembly state are reset |
| TcpStream.TcpControlWorker.OnReadyRead | QT/Desktop/src/net/Tcp_ControlWorker.cpp:85-91 | a read appends its bytes and parses as far as possible |
| TcpStream.TcpControlWorker.ProcessBuffer | QT/Desktop/src/net/Tcp_ControlWorker.cpp:120-167 | the loop takes every complete packet, skips one byte where no header is valid, stops at an incomplete packet; each round shortens the buffer |
| TcpStream.DrainThenMore | QT/Desktop/src/net/Tcp_ControlWorker.cpp:120-167 | parsing before more bytes arrive does not change the outcome of parsing after |
| TcpStream.ChunkingIndependence | QT/Desktop/src/net/Tcp_ControlWorker.cpp:85-91 | for every stream and every way to cut it into reads, dispatched frames and final state are those of one read of the whole |
| TcpStream.Resynchronise | QT/Desktop/src/net/Tcp_ControlWorker.cpp:122-129 | garbage in which no header starts leaves the dispatched frames unchanged |
| TcpEndToEnd.AcceptBlob | QT/Desktop/src/net/Tcp_ControlWorker.cpp:146-165 | all packets of a blob in order make an idle receiver dispatch the joined payloads once |
| TcpEndToEnd.DeliveredWholeIff | src/net/tcp_send.c:270-310 | a non-empty blob is delivered whole if and only if it has at most 65535 * 1400 bytes |
| TcpEndToEnd.SendBlobs | src/net/tcp_send.c:393-412 | sending blobs one after the other writes their packets with consecutive frame ids, wrapping, until the connection fails within one of them |
| TcpEndToEnd.EndToEnd | QT/Desktop/src/net/Tcp_ControlWorker.cpp:51-167 | on a fresh connection, however the bytes are cut into reads, exactly the blobs sent before the frame counter wraps, and after that those with the last frame id, are dispatched, in order, once each, and nothing stays pending |
| TcpEndToEnd.AllBeforeTheWrap | QT/Desktop/src/net/Tcp_ControlWorker.cpp:51-167 | before the counter wraps these are all blobs sent, each with its frame id |
| TcpEndToEnd.PartBreaksOff | src/net/tcp_send.c:270-310 | whatever part of the stream arrives ends within one of the blobs |
| TcpEndToEnd.FailingConnection | QT/Desktop/src/net/Tcp_ControlWorker.cpp:51-167 | wherever the stream breaks off, exactly the blobs written whole are dispatched, in order and once each, and nothing of the broken one |
| TcpSession.SendSession | src/net/tcp_send.c:372-412 | over any number of connections, each failing anywhere: on each the blobs waiting are written until one breaks off, and the next goes on behind it with its frame id |
| TcpSession.SessionDelivers | QT/Desktop/src/net/Tcp_ControlWorker.cpp:51-167 | however much of each connection arrives, the receiver dispatches on each a first part of the blobs written whole there, in order, and all of them if all bytes arrive |
| TcpSession.WrapLosesBlobs | QT/Desktop/src/net/Tcp_ControlWorker.cpp:146-148 | of two blobs sent from the last value of the frame counter on, only the first is dispatched |
| UdpReceiver.UdpReceiverWorker.OnReadyRead | QT/Desktop/src/net/UdpReceiverWorker.cpp:37-87 | short and invalid datagrams are dropped, all others take the reassembly step |
| UdpReceiver.SenderProducesPackets | src/net/udp_send.c:115-142 | every datagram of the sender is a packet of the blob sent under its frame id |
| UdpReceiver.CompleteFrameIsBlob | QT/Desktop/src/net/UdpReceiverWorker.cpp:76-81 | as many distinct packets as the count says, all genuine, are all packets: joined they are the blob |
| UdpReceiver.UdpSafety | QT/Desktop/src/net/UdpReceiverWorker.cpp:37-100 | under any loss, duplication and reordering, and whatever is evicted, each emitted frame is a blob that was sent, and emitted frame ids never decrease |
| UdpDispatch.HaveNext | QT/Desktop/src/net/UdpReceiverWorker.cpp:60-85 | one datagram, in any reachable state: a frame that is not stale is dispatched exactly if this packet was the one missing, otherwise what arrived is stored beside what was not evicted |
| UdpDispatch.StoredSince | QT/Desktop/src/net/UdpReceiverWorker.cpp:60-85 | in every run, what is stored of a frame that is not stale is exactly what arrived of it since it was last dispatched or evicted |
| UdpDispatch.DispatchedIff | QT/Desktop/src/net/UdpReceiverWorker.cpp:60-85 | in every run, a frame is dispatched, and dispatched again, if and only if all its packets arrive, or arrive again, while it is not stale and without eviction in between |
| UdpDispatch.StrictIff | QT/Desktop/src/net/UdpReceiverWorker.cpp:60-85 | each frame is dispatched at most once, in strictly increasing order, if and only if no frame arrives whole twice in this sense |
| UdpDispatch.NoRepetitionStrict | QT/Desktop/src/net/UdpReceiverWorker.cpp:60-85 | this is so under any loss and reordering if the network repeats no packet |
| UdpDispatch.RepeatedFrameDispatchedTwice | QT/Desktop/src/net/UdpReceiverWorker.cpp:37-87 | the datagrams of any blob, received in order and then all of them again, make the receiver dispatch it twice |
| UdpReordering.OtherFrames | QT/Desktop/src/net/UdpReceiverWorker.cpp:89-100 | in plain arithmetic: with more than three frames pending, a packet of frame c >= 3 makes the receiver give up every other frame below c - 3 and leaves all others as they are; with three or fewer all stay |
| UdpReordering.OwnFrame | QT/Desktop/src/net/UdpReceiverWorker.cpp:60-100 | a packet leaves the other packets of its own frame as they are, except below frame 3 with more than three frames pending |
| UdpReordering.BoundedReordering | QT/Desktop/src/net/UdpReceiverWorker.cpp:37-100 | in every run, a frame that is not stale is dispatched if all its packets arrive while nothing arrives from more than three frames ahead and no later frame is dispatched |
| UdpReordering.CountedNotChecked | QT/Desktop/src/net/UdpReceiverWorker.cpp:60-85 | packets are counted by their indices, and those below the count are joined; a frame announced with at most one packet is dispatched at once |
| PyReceiver.Receiver.HandleDatagram | py_for_pc/net_recv/udp_video_receiver.py:41-65 | the effect of one datagram on the frame dictionary and the newest frame id |
| PyReceiver.Receiver.HandleDrained | py_for_pc/net_recv/udp_video_receiver.py:71-94 | a complete newest frame is joined, reported if it is an image that decodes, and dropped; an exception while the image is handled leaves it |
| PyReceiver.PySafety | py_for_pc/net_recv/udp_video_receiver.py:36-88 | for every arrival order and every placement of drains, completed images are blobs that were sent and their frame ids strictly increase |
| PyReceiver.ShownExactly | py_for_pc/net_recv/udp_video_receiver.py:36-88 | in every run, whatever else arrives: an image is shown exactly at the first drain after its last missing packet, wherever drains fall between its packets, unless a later frame has arrived; an exception leaves it to the next drain, a picture that does not decode ends it; what is shown is the blob sent |
| CutDatagrams.DesktopDropsCut | QT/Desktop/src/net/UdpReceiverWorker.cpp:45-58 | a datagram cut anywhere changes nothing |
| CutDatagrams.PythonShowsCut | py_for_pc/net_recv/udp_video_receiver.py:41-65 | one cut behind its header is stored with what is left of its payload, and shown |
| CutDatagrams.RestIgnored | QT/Desktop/src/net/UdpReceiverWorker.cpp:52-58 | neither receiver looks at what stands behind the payload |
| StableQueue.InsertAt | src/msg/msg_deliver.c:107-116 | the shifting loop puts a message behind the last one of at least its priority and keeps the order of all others |
| StableQueue.InsertContents | src/msg/msg_deliver.c:105-122 | insertion adds the message and loses none |
| StableQueue.EveryRunIsStable | src/msg/msg_deliver.c:105-147 | in every run of pushes and pops: ordered by priority and, among equals, arrival; overtaking only with strictly higher priority; accepted = popped + waiting |
| StableQueue.PopTakesOldestOfHighest | src/msg/msg_deliver.c:129-147 | a pop returns the oldest message of the highest priority |
| QueueRuns.EveryTraceIsTied | src/msg/msg_deliver.c:105-248 | every run of sends and pops of the queue, in both build variants, is such a run of numbered priorities |
| QueueRuns.MessagesServedStably | src/msg/msg_deliver.c:105-248 | so a message overtakes another only with strictly higher priority, none accepted is lost or handed out twice, and without priorities they leave in the order accepted |
| MsgQueue.Queue.Prepare | src/msg/msg_deliver.c:78-99 | a log message is copied to the next ring entry, cut to its size and padded with zeros, and then points there; all others are unchanged |
| MsgQueue.Queue.ShiftUp | src/msg/msg_deliver.c:108-114 | the loop moves exactly the messages of lower priority up one place |
| MsgQueue.Queue.Push | src/msg/msg_deliver.c:105-122 | both build variants insert into the queue as specified by stable insertion |
| MsgQueue.Queue.Pop | src/msg/msg_deliver.c:129-147 | removes the first message and shifts the rest down |
| MsgQueue.Queue.MsgSend | src/msg/msg_deliver.c:224-248 | refused exactly when 32 messages wait, and then nothing changes and the message is handed to its release; otherwise prepared and inserted |
| LogRing.SendStepIsSend | src/msg/msg_deliver.c:224-248 | the step system is the queue with bookkeeping: forgetting it gives the queue's own send |
| LogRing.LogRingSafety | src/msg/msg_deliver.c:78-147 | in every run, in both build variants, each log message queued or in flight owns its ring entry, which holds the bytes of the message as it was sent, as many as announced and as fit, and zeros behind them |
| LogRing.HandledAsSent | src/msg/msg_deliver.c:78-147 | whatever is queued or in flight was sent, and is as it was sent, but for the place and the length, at most 88, of a log message |
| LogRing.InsertLog | src/msg/msg_about.c:107-111 | because all logs have one priority, a new log message lands behind all others, whatever else it overtakes |
| Camera.CameraData.ChangeImageTakenFlag | src/v4l2/v4l2_dev.c:55-59 | takes a reference: the flag is set and the counter goes up |
| Camera.CameraData.ResetImageTakenFlag | src/v4l2/v4l2_dev.c:65-75 | drops a reference: a positive counter goes down, and the flag is cleared at zero |
| Camera.CameraData.MsgReleaseHandler | src/v4l2/v4l2_dev.c:250-260 | releasing a message drops a reference to the buffer it names, if that index exists |
| Camera.CameraData.Publish | src/v4l2/v4l2_dev.c:203-207 | a buffer is published only with counter zero, and then the other one is next |
| Camera.ReferencesAreConserved | src/v4l2/v4l2_dev.c:203-226 | in every run each counter equals the camera messages about that buffer queued or in flight plus the references not yet dispatched, and the flag says whether that is zero |
| Camera.PublishedOnlyWhenFree | src/v4l2/v4l2_dev.c:204-206 | the capturing thread publishes a buffer if and only if no message refers to it |
| Camera.GuardNeverBites | src/v4l2/v4l2_dev.c:68-70 | whenever a reference is dropped the counter is positive: the guard never hides an underflow |
| Camera.NothingLeaks | src/v4l2/v4l2_dev.c:65-75 | when everything sent has been released, both counters and flags are zero |
| CameraOffers.EveryImageIsOffered | src/v4l2/v4l2_dev.c:203-226 | in every run, every image published is offered to the UDP sender, to the storage and, exactly if it is due, to the alarm module, in this order, and nothing else is |
| CameraOffers.OfferIsQueuedOrReleased | src/v4l2/v4l2_dev.c:210-218 | an offer puts a message about the image at the end of the queue, or, refused, gives its reference back |
| BigData.RunKeepsInv | src/net/tcp_send.c:409-493 | every reachable state, over all interleavings, satisfies the ownership invariant |
| BigData.SingleOwner | src/net/tcp_send.c:467-493 | a token is with its source, in the queue, in a handler or in the slot, never in two of these; no step touches a freed token, the reading of its data during the transfer included |
| BigData.FreedBySourceOnly | src/command/command_get.c:99-114 | a token is freed only by its own source: after coming back with a final status, or when the first dispatch of a response is refused |
| BigData.FreedForGood | src/log/log.c:198-214 | a freed token stays freed |
| BigData.ReportedOnceReturnedOnce | src/net/tcp_send.c:413-422 | each token is reported at most once and freed at most once, with the reported status; unless the queue refused a token, every reported one is freed or on its way |
| BigDataSteps.NeverLost | src/net/tcp_send.c:409-493 | in every run in which the queue refused no token, every allocated token with data and a length is in exactly one place |
| BigDataSteps.CreatedHeld | src/json/json_about.c:149-159 | allocating gives a token never given out before, held by its source, not reported and not returned |
| BigDataSteps.FirstSendUnderway | src/json/json_about.c:161-167 | the first dispatch puts a message with the token for the TCP sender into the queue; refused, a response is freed and a log file stays with nobody |
| BigDataSteps.TcpTakesOrReturns | src/net/tcp_send.c:467-493 | a usable token goes into the free slot, where the thread finds it with its source, or is marked and about to be sent back; one without data is dropped |
| BigDataSteps.MarkedUnderway | src/net/tcp_send.c:484-490 | a marked token is then in the queue, on its way to its source |
| BigDataSteps.SourceSendsAgainOrFrees | src/command/command_get.c:99-114 | a token marked for resending is, after its source has handled it, in the queue for the TCP sender again; any other is freed with the status it has |
| BigDataSteps.OutcomeIsReported | src/net/tcp_send.c:395-420 | whatever the other threads do meanwhile, the status reported is the outcome of the transfer, noted once, and the token is in the queue for its source |
| BigDataSteps.TriedAgain | src/net/tcp_send.c:372-386 | a transfer that finds no connection changes nothing: after the next wake everything is as before |
| BigDataSteps.ImageTakesSlot | src/net/tcp_send.c:440-461 | an image occupies the free slot until it is sent, without a report; with the slot taken it is dropped |
| BigDataSteps.SlotIsFreed | src/net/tcp_send.c:421-424 | after clearing, the slot is free and holds no token |
| BigDataWake.SoundRunIsOrdinary | src/net/tcp_send.c:340-391 | a run with timed wakes in which no look failed and no token was accepted between a look and its successful reconnect is, step for step, a run without them |
| BigDataWake.LookFaultsIff | src/net/tcp_send.c:340-367 | after any such run, the look at the slot fails if and only if the thread is idle, the slot free, and the last accepted transfer a large one |
| BigDataWake.StrandedIff | src/net/tcp_send.c:356-424 | a token becomes stranded if and only if the thread goes on over a new connection after a token was accepted since its look, and it is that token |
| BigDataWake.StrandedForGood | src/net/tcp_send.c:409-424 | a stranded token stays allocated and is never reported nor returned in any continuation without another timed wake |
| BigDataWake.LookCanFault | src/net/tcp_send.c:340-367 | a run after which the look fails |
| BigDataWake.TokensAreStranded | src/net/tcp_send.c:375-391 | a run after which going on strands a token |
| BigDataReturn.ReportedTokenReturns | src/msg/msg_deliver.c:316-329 | in both build variants and in every continuation, a reported token has been freed by its source with the reported status after 131 steps of the delivering thread, and four more for each message of higher priority sent meanwhile |
| BigDataReturn.NeverStuck | src/msg/msg_deliver.c:316-329 | with such a token on its way, only the lock held while a report is cleared can keep the delivering thread waiting |
| BigDataBoard.Board.NewToken | src/json/json_about.c:149-159 | a token is allocated and belongs to its source |
| BigDataBoard.Board.SendNewToken | src/json/json_about.c:161-167 | the first dispatch; a refused response is freed at once |
| BigDataBoard.Board.TcpSendHandleToken | src/net/tcp_send.c:467-483 | a usable token goes into the free slot; with a busy slot it is marked for resending |
| BigDataBoard.Board.TcpSendAskAgain | src/net/tcp_send.c:484-490 | a marked token is sent back to the module it came from |
| BigDataBoard.Board.SourceHandleToken | src/command/command_get.c:99-114 | a final token is freed, one to be sent again is dispatched again |
| BigDataBoard.Board.TakeWork | src/net/tcp_send.c:356-369 | what the sending thread reads under the lock; the token it reads is allocated |
| BigDataBoard.Board.ReportResult | src/net/tcp_send.c:413-420 | the final status is written and the token dispatched to its source |
| BigDataBoard.Board.ClearSlot | src/net/tcp_send.c:421-424 | the slot forgets the token and is free |
| Utf16.ParseHex4 | src/json/cJSON.c:661-694 | four hexadecimal digits denote their value, anything else reads as 0 |
| Utf16.HexRoundTrip | src/json/cJSON.c:1058 | the four printed digits of a code unit read back as that unit |
| Utf16.Utf8RoundTrip | src/json/cJSON.c:761-808 | decoding the UTF-8 bytes of a code point gives the code point |
| Utf16.Utf8Shortest | src/json/cJSON.c:764-791 | no byte string with the bit pattern of a character (section 3 of RFC 3629) that denotes the code point is shorter |
| Utf16.WriteUtf8 | src/json/cJSON.c:793-810 | the backward loop writes exactly those bytes |
| Utf16.ContinuationPattern | src/json/cJSON.c:797 | the two masks of a continuation byte give 0x80 plus the low six bits, for every byte |
| Utf16.FirstBytePattern | src/json/cJSON.c:803 | joining the mark of a first byte to the remaining bits is addition |
| Utf16.DecodesExactly | src/json/cJSON.c:708-759 | accepts an escape if and only if its one or two units are the UTF-16 form (section 2 of RFC 2781) of a code point; lone and mismatched surrogates are refused |
| Utf16.LiteralsDecode | src/json/cJSON.c:698-816 | the escapes of any code point decode to it |
| Utf16.LiteralToUtf8 | src/json/cJSON.c:698-816 | the code decodes as above, writes the UTF-8 bytes and changes nothing else |
| JsonString.EscapeLength | src/json/cJSON.c:976-1000 | the printer's first pass counts exactly the bytes its second pass adds |
| JsonString.UnescapeEscape | src/json/cJSON.c:865-946 | unescaping inverts escaping for every string without a zero byte (section 7 of RFC 8259) |
| JsonString.StringRoundTrip | src/json/cJSON.c:819-946 | a printed string literal is read back whole, whatever follows it |
| JsonString.UnescapeFits | src/json/cJSON.c:833-858 | the second pass writes at most one byte per plain character or escape counted by the first, even where an invalid escape makes the passes disagree |
| JsonString.PieceFits | src/json/cJSON.c:867-920 | the same for each single round, from every relative position of the two passes |
| JsonSpelling.SpelledStringIsRead | src/json/cJSON.c:819-946 | a quoted string is read as the UTF-8 bytes of its characters, each spelled plainly, with a two-character escape, or with the escapes of its code units, in digits of either case |
| JsonSpelling.LiteralsUnescape | src/json/cJSON.c:906-913 | every code point escaped by its code units becomes its UTF-8 bytes, whatever follows |
| JsonSpelling.RefusedStringFails | src/json/cJSON.c:865-920 | reading fails exactly where the first bad escape starts: an unknown letter, one cut short, or a surrogate that is not the first of a pair |
| JsonSpelling.SpelledOrRefused | src/json/cJSON.c:865-920 | there is nothing else: every text starts with a spelled character or with a refused escape |
| JsonSpelling.ClosesIff | src/json/cJSON.c:832-858 | the closing quote is the first one with no backslash in front of it that escapes it |
| JsonSpelling.UnclosedStringFails | src/json/cJSON.c:832-858 | without one, reading fails at the first character |
| JsonNumber.NumberRoundTrip | src/json/cJSON.c:307-408 | a printed 32-bit integer is read back exactly, in front of anything that cannot continue a number |
| JsonNumber.Int32Field | src/json/cJSON.c:388-400 | the integers equal to their saturated and truncated integer field are exactly those of 32 bits |
| JsonNumeral.NumeralIsRead | src/json/cJSON.c:307-408 | a numeral is read whole, as the sum of its digits by their places, in front of and behind the point, times its power of ten |
| JsonNumeral.StrtodMeans | src/json/cJSON.c:378 | the same for the conversion alone, in front of anything that does not continue the numeral |
| JsonNumeral.AcceptedIff | src/json/cJSON.c:378-382 | a text is refused if and only if it starts with no numeral |
| JsonValue.RenderHasNoZero | src/json/cJSON.c:1418-1881 | the text of a value has no zero byte, so its length is what `strlen` finds |
| JsonParser.ParseBuffer.SkipWhitespace | src/json/cJSON.c:1085-1108 | skips white space but never beyond the last character |
| JsonParser.ParseBuffer.SkipUtf8Bom | src/json/cJSON.c:1111-1124 | skips a byte order mark that has at least two more characters behind it |
| JsonParser.ParseBuffer.ParseNumber | src/json/cJSON.c:307-408 | collects the characters of a number and takes what the conversion takes; beyond the range of double precision the value is infinite |
| JsonParser.ParseBuffer.FindEnd | src/json/cJSON.c:832-858 | the closing quote, and the number of bytes saved by escapes |
| JsonParser.ParseBuffer.SecondPass | src/json/cJSON.c:865-920 | unescapes in place into the allocated buffer, never beyond its end |
| JsonParser.ParseBuffer.ParseString | src/json/cJSON.c:819-946 | the C string read and the new offset, or the offset of the failure |
| JsonParser.ParseBuffer.ParseValue | src/json/cJSON.c:1363-1415 | value, offset and error offset agree with the grammar for every input, nesting depth and position |
| JsonParser.ParseBuffer.ParseArray | src/json/cJSON.c:1492-1587 | the same for arrays, with the nesting counter restored on success |
| JsonParser.ParseBuffer.ParseObject | src/json/cJSON.c:1652-1767 | the same for objects |
| JsonParser.ParseBuffer.ParseElements | src/json/cJSON.c:1524-1564 | the loop over elements agrees with the recursive grammar |
| JsonParser.ParseBuffer.ParseMembers | src/json/cJSON.c:1682-1745 | the loop over members agrees with the recursive grammar |
| JsonParser.ParseWithLengthOpts | src/json/cJSON.c:1142-1219 | the whole text: byte order mark, value, optional terminator, end position or error position |
| JsonComplete.WrittenBack | src/json/cJSON.c:1363-1767 | every written value, whatever its white space, spellings and numerals, is read as what it means if at most 1000 arrays and objects are nested, and refused otherwise; in the middle of a text as well |
| JsonSound.ValueFound | src/json/cJSON.c:1363-1767 | whatever the parser accepts is a written value, exactly the characters consumed, and the value returned is what it means |
| JsonSound.AcceptedIsWritten | src/json/cJSON.c:1142-1219 | the same for a whole text: byte order mark, white space and a written value |
| JsonErrors.RefusedAtOnce | src/json/cJSON.c:1363-1415 | refused at its first character is what starts no value, no numeral, or a list nested too deeply |
| JsonErrors.TextRefused | src/json/cJSON.c:819-946 | a string is refused where `JsonSpelling` says |
| JsonErrors.ElementRefused | src/json/cJSON.c:1492-1587 | behind any written elements, an element that is refused makes the list be refused at that very place |
| JsonErrors.ListNotEnded | src/json/cJSON.c:1548-1564 | behind an element anything but a comma or the closing bracket is an error, right there |
| JsonErrors.MemberRefused | src/json/cJSON.c:1652-1767 | behind any written members, a member that is refused makes the record be refused at that very place |
| JsonErrors.NameRefused | src/json/cJSON.c:1708-1713 | a member is refused where its name is refused |
| JsonErrors.ColonMissing | src/json/cJSON.c:1721-1724 | or where the colon is missing |
| JsonErrors.MemberValueRefused | src/json/cJSON.c:1726-1732 | or where its value is refused |
| JsonErrors.RecordNotEnded | src/json/cJSON.c:1733-1745 | behind a member anything but a comma or the closing brace is an error, right there |
| JsonDocument.DocumentIsRead | src/json/cJSON.c:1142-1219 | white space and a written value are read as a document that ends right behind the value |
| JsonDocument.TerminatedIff | src/json/cJSON.c:1173-1181 | with a terminator demanded, exactly the texts are accepted in which only white space follows, zeros included, and the last character is a zero |
| JsonDocument.MarkMovesText | src/json/cJSON.c:1111-1124 | a byte order mark in front of at least two characters moves all positions by three and changes nothing else; in front of fewer it is an error |
| JsonPrinter.PrintBuffer.Ensure | src/json/cJSON.c:485-568 | succeeds exactly if the room fits the limit (the fixed buffer, or INT_MAX), keeps the written prefix on both reallocation paths and keeps the offset inside the buffer |
| JsonPrinter.PrintBuffer.UpdateOffset | src/json/cJSON.c:571-581 | moves the offset to the end of the text, wherever in the text it stood |
| JsonPrinter.PrintBuffer.CountEscapes | src/json/cJSON.c:976-999 | the first pass over a string |
| JsonPrinter.PrintBuffer.WriteEscaped | src/json/cJSON.c:1019-1063 | the second pass writes the escaped bytes in place, including the zeros `sprintf` leaves behind a code unit, inside the reserved room |
| JsonPrinter.PrintBuffer.PrintString | src/json/cJSON.c:949-1068 | succeeds exactly if the quoted string and two more bytes fit, and then the buffer holds prefix, quoted string and zero; a missing string prints as an empty one |
| JsonPrinter.PrintBuffer.PrintNumber | src/json/cJSON.c:591-658 | the same for a 32-bit integer, and for what is not finite, as a null; it also advances the offset |
| JsonPrinter.PrintBuffer.PrintValue | src/json/cJSON.c:1418-1489 | succeeds if and only if the text and two more bytes fit; then the buffer holds the old prefix, the text and a zero, and the depth is restored |
| JsonPrinter.PrintBuffer.PrintArray | src/json/cJSON.c:1590-1649 | the same for arrays |
| JsonPrinter.PrintBuffer.PrintObject | src/json/cJSON.c:1770-1881 | the same for objects |
| JsonPrinter.PrintBuffer.PrintName | src/json/cJSON.c:1799-1831 | the indented key with its colon |
| JsonPrinter.PrintBuffer.PrintMember | src/json/cJSON.c:1797-1861 | one round of the loop over members |
| JsonPrinter.Print | src/json/cJSON.c:1234-1299 | returns exactly the text of the value and a zero, unless the text is longer than INT_MAX - 2 |
| JsonPrinter.PrintPreallocated | src/json/cJSON.c:1343-1360 | succeeds if and only if the caller's buffer has room for the text and two more bytes |
| JsonLayout.RenderIsLayout | src/json/cJSON.c:1418-1881 | the printed text is that of a written value that means the value, with the shortest digits, the spelling of each byte and the white space in each gap given one by one |
| JsonLayout.DigitsAreShortest | src/json/cJSON.c:612-616 | integers are printed in decimal digits without leading zeros |
| JsonLayout.SpellingMeans | src/json/cJSON.c:1019-1063 | the spelling of each byte: as it is, a two-character escape, or four lower-case digits for the other control characters |
| JsonRoundTrip.PrintThenParse | src/json/cJSON.c:1363-1881 | parsing the printed text of any tree of 32-bit integers, strings and words gives the tree back, formatted or not, if and only if at most 1000 arrays and objects are nested |
| JsonRoundTrip.ValueBack | src/json/cJSON.c:1363-1415 | the same in the middle of a text and below other arrays and objects |
| JsonReprint.PrintThenParseAny | src/json/cJSON.c:591-1881 | any printable value without raw text comes back with a null for every number that is not finite, and unchanged if and only if all are finite |
| JsonReprint.ParsedPrintsBack | src/json/cJSON.c:1142-1881 | whatever text was parsed, if its finite numbers are integers of 32 bits, the value can be printed and is read back the same, with nulls for infinities |
| JsonReprint.ParsedValueIsTame | src/json/cJSON.c:1363-1767 | every value the parser returns has C strings only and respects the nesting limit |
| JsonRoundTrip.TextDeterminesValue | src/json/cJSON.c:1418-1489 | values with the same text are equal |
| JsonRoundTrip.RawTextIsRead | src/json/cJSON.c:1452-1468 | text inserted unchanged is read back as the value whose text it is |
| JsonCompare.CompareKeys | src/json/cJSON.c:133-155 | the character loop decides equality of names, with or without case |
| JsonCompare.GetObjectItem | src/json/cJSON.c:1936-1966 | finds the first member whose key matches |
| JsonCompare.CompareItems | src/json/cJSON.c:3057-3180 | the loops over elements and, twice, over members decide the comparison, of all values including infinite numbers and raw text |
| JsonCompare.CompareCall | src/json/cJSON.c:3057-3086 | missing values are equal to nothing, and a value is equal to itself without a comparison |
| JsonCompare.CompareSymmetric | src/json/cJSON.c:3057-3180 | comparison is symmetric on all values |
| JsonCompare.CompareIsEquality | src/json/cJSON.c:3057-3180 | for 32-bit integers: two values compare equal if and only if in both all members of one name mean the same, and they are equal up to the order and repetition of members |
| JsonCompare.CompareItselfIff | src/json/cJSON.c:3057-3180 | for any value: it compares equal to itself if and only if every member whose value is not that of the first member of its name compares equal to that one, and every other number is finite |
| JsonCompare.DistinctEqualToItselfIff | src/json/cJSON.c:3057-3180 | with distinct keys: if and only if all numbers are finite |
| JsonCompare.EqualToItselfIffCoherent | src/json/cJSON.c:3057-3180 | for 32-bit integers: a value compares equal to itself if and only if all members of one name mean the same |
| JsonCompare.CompareOfDistinctKeys | src/json/cJSON.c:3057-3180 | for 32-bit integers and distinct keys: if and only if they are equal up to the order of members |
| JsonCompare.Int32Exact | src/json/cJSON.c:584-588 | on 32-bit integers the relative tolerance is equality |
| JsonEquality.NumbersEqualIff | src/json/cJSON.c:584-588 | two finite numbers are equal if and only if their difference is at most 2^-52 of one of them |
| JsonEquality.SameKeyIff | src/json/cJSON.c:133-155 | two keys are the same if and only if they have the same bytes, up to the case of letters of ASCII if asked |
| JsonEquality.EqualKinds | src/json/cJSON.c:3057-3135 | values of different kinds are never equal, nor is anything equal to an undefined number |
| JsonCompare.DuplicateRec | src/json/cJSON.c:2774-2858 | the loops over children build the recursive copy; without recursion the children are left out |
| JsonCompare.DuplicateIsCopy | src/json/cJSON.c:2774-2858 | the copy equals the original, and copying fails exactly for values with children nested more than 10000 deep |
| JsonCompare.CompareDuplicate | src/json/cJSON.c:2774-3180 | a value with distinct keys compares equal to its duplicate, in either order, if and only if all its numbers are finite |
| JsonCompare.CompareDuplicateIff | src/json/cJSON.c:2774-3180 | exactly when any value compares equal to its duplicate: when repeated members agree with the first of their name and all other numbers are finite |
| JsonCompare.RepeatedMemberEqualToItself | src/json/cJSON.c:3143-3156 | an object in which a member is repeated unchanged is such a value |
| JsonCompare.RepeatedKeyNotEqualToItself | src/json/cJSON.c:3143-3156 | an object that says true and false about one name is not, for any key |
| JsonInfinity.RangeOfDoubles | src/json/cJSON.c:378-387 | everything up to the largest double is finite, and from 2^1024 on a number is infinite |
| JsonInfinity.TooLargeParses | src/json/cJSON.c:378-402 | the text `1e999` is accepted and gives infinity |
| JsonInfinity.InfinityIsNotItself | src/json/cJSON.c:584-588 | an infinite number is not equal to its duplicate, but to every finite number and to the opposite infinity |
| JsonInfinity.InfinityPrintsAsNull | src/json/cJSON.c:607-611 | its text is a null, and that is what is read back |
| JsonList.ListIsUnique | src/json/cJSON.c:1907-1924 | walking along the forward links from the first child determines the children: a parent has one list of them |
| JsonList.GetArrayItem | src/json/cJSON.c:1907-1924 | walks to the child with the given index, or to null |
| JsonList.AddItemToArray | src/json/cJSON.c:2012-2043 | append; the result is a well-formed list if and only if the node was not yet a child and the list was empty or the node had no successor |
| JsonList.InsertItemInArray | src/json/cJSON.c:2319-2351 | insertion in front of an index, append beyond the end; the result is a list under the same condition, the successor mattering for an append only |
| JsonList.DetachItemViaPointer | src/json/cJSON.c:2243-2277 | removal; the detached node points nowhere, and a node in no list is refused |
| JsonList.ReplaceItemViaPointer | src/json/cJSON.c:2353-2400 | update in place; the replaced node points nowhere and is given up for deletion |
| JsonList.InsertThenDetach | src/json/cJSON.c:2243-2351 | inserting a new node and detaching it again restores the list |
| JsonList.DetachThenInsert | src/json/cJSON.c:2243-2351 | detaching a child and inserting it again in the same place restores the list |
| JsonList.LinkParsed | src/json/cJSON.c:1526-1571 | the links the parser sets between the children it reads make them the list of the parent, in order |
| JsonList.LinkDuplicated | src/json/cJSON.c:2816-2847 | so do the links that a copy sets, which enters the first child at once |

## Left out

Deliberately weaker, or with a reading of the code that should be known:

- Utf16.WriteUtf8: shifts and masks are written as arithmetic; the two pattern lemmas say that this is the same.
- JsonNumber.Strtod: the library conversion is exact over the reals up to the overflow to infinity, so rounding and the
  locale's decimal point are not modelled; nor is rounding in the comparison of numbers.
- JsonPrinter.PrintBuffer.PrintNumber: of the finite numbers only those that equal their integer field; the format for
  all others is floating-point formatting.
- JsonPrinter.PrintBuffer.Ensure: allocation always succeeds; a buffer of length 0, which `cJSON_PrintBuffered` allows,
  is not modelled.
- JsonPrinter.PrintPreallocated: a buffer of length 0 is refused at once, where the code refuses it in the first request
  for room.
- JsonParser.ParseBuffer.ParseElements: the children read so far are a sequence; the links the loop sets between them,
  and those of a copy, are the subject of `JsonList.LinkParsed` and `JsonList.LinkDuplicated`.
- JsonPrinter.PrintBuffer.PrintMember: a member always has a key.
- JsonReprint.PrintThenParseAny: raw text is printed as it is, so what it is read back as depends on it.
- JsonCompare.EqualToItselfIffCoherent: for numbers that are not 32-bit integers equality is not transitive, so only
  `JsonCompare.CompareItselfIff` speaks about them.
- JsonCompare.CompareCall: whether two pointers are the same is a parameter; below the roots of two trees without
  reference items they never are.
- JsonList.DetachItemViaPointer: nodes that are children of another parent are not passed in.
- JsonList.ReplaceItemViaPointer: the same holds, and the deletion of the replaced node is left to the caller.
- Packets.TcpSender.TcpSendFrame: stopping between two packets because the program ends looks the same as a connection
  that takes no more bytes there.
- UdpReceiver.UdpSafety: a frame id stands for one blob, so runs in which the sender's counter wraps are not covered;
  the same holds for `UdpDispatch` and `PyReceiver`.
- UdpDispatch.DispatchedIff: the condition speaks of the evictions that happen; `UdpReordering` says which these are.
- BigDataSteps.ImageTakesSlot: an image without data, or too large for the send buffer, is one whose data is null.
- JsonErrors.ElementRefused: where a text is refused that breaks off, so that nothing or only white space is left, is
  not stated.
- PyReceiver.Receiver.HandleDrained: decoding and showing the image is left out; what becomes of it is a parameter.
- CrcTable.TableEntry: the table is sixteen functions of sixteen entries each instead of an array.
- BigDataWake.StrandedForGood: nothing is said about a timed wake after a token was stranded; and an image accepted
  during a reconnect counts as the transfer seen, although the code then uses the length of the image before.
- BigData.ReportedOnceReturnedOnce: nothing is said about a token whose dispatch the queue refuses later than the first
  time; it stays with nobody.
- Camera.ReferencesAreConserved: the build without priorities, with each increment taken as atomic; the build with
  priorities takes two references and sends three messages.
- Reassembly.Reassembler.AcceptPacket: which signal a dispatched frame leads to, by its type, is left out; the log of
  dispatches also records the frame id, which the code does not pass on.

Not modelled:

- Sockets, receive loops, V4L2 calls, threads and locks as such: lock regions are steps, the network is a byte sequence
  or a bag of datagrams, and a connection is a number of bytes it takes before it fails.
- The `running` flag, shutdown, clearing the queue and unregistering modules: queued messages are dropped there.
- Module registration: `MODULE_ID_TCP` in src/msg/msg_deliver.c:61 is not a member of the enumeration and is read as
  `MODULE_ID_TCP_SEND`; all modules are taken as registered.
- `cJSON_Minify`, reference items and constant keys.
- The command receiver of the board and its flow control, and the Python TCP receiver.
- Storage, log batching, alarms, the user interface, OpenCV, FFmpeg and SQLite.
- The pixels of a camera buffer: they are copied before the counter is looked at.
