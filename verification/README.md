# A verified model of picoquic's stream, ACK, HTTP/3 and congestion-control code

picoquic is an implementation of QUIC in C. This project models in Dafny the parts of it whose correctness does not
show in any single function, and proves what they are for:

* **Reliable streams** (`Varint`, `StreamFrames`, `StreamSender`, `Retransmit`, `Reassembly`, `ReassemblyRuns`,
  `Transfer`, `Endpoints`, `Conservation`, `Completion`). Application data are cut into STREAM frames under flow control,
  lost frames are queued and split in place for retransmission, and the receiver keeps what arrives in a sorted tree and
  delivers it in order. The main results are end to end. Whatever the network drops, repeats or reorders, the delivered
  bytes are a prefix of the written bytes, and all of them when the FIN is signalled. Nothing that was sent is forgotten
  before it was received, so that all is delivered once nothing waits any more; and from every state of every run that
  end can be reached, with packets of any usual size. `Endpoints` shows that the methods of the other modules make the
  steps of these runs.
* **Acknowledgements** (`SackList`, `AckFrames`, `AckProcessing`). The list of received ranges, the ACK frames that are
  written from it, and the walk of a received ACK over the queue of sent packets.
* **Flow control** (`RecvFlow`, `SendFlow`). The accounting over all streams of a connection, on both sides. `RecvFlow`
  counts over all streams what `Reassembly` receives on one; both use the same test of the limits.
* **Frame walkers** (`FrameWalkers`, `FrameWire`, `Datagram`). The decoder, the skipping function and the walk over
  acknowledged packets cut a packet at the same places. `FrameWire` writes every kind of frame and proves which are
  accepted in which packets, and what is asked for. DATAGRAM frames have a round trip of their own.
* **HTTP/3** (`H3Stream`, `H3Filter`, `H3Requests`, `PrefixInt`, `Qpack`, `QpackTable`, `QpackBlocks`, `HuffmanTables`,
  `HuffmanTrie`, `Huffman`). The incremental filter of a request stream does not depend on how the bytes are cut; QPACK
  header blocks and the Huffman code have round trips. `QpackTable` lists the static table, and a header block means the
  same in whichever form its lines refer to it.
* **Congestion control** (`CcCommon`, `Cubic`, `NewReno`, `Filters`). The cube root and the curve of Cubic in exact
  reals, the window growth of New Reno, and the two sliding filters.
* **quicperf** (`QuicPerf`). The exchange of a post and a response of the size that it asks for.

`Vectors` holds bytes that are fixed by the standards, to which the formats of the other modules are tied.

Every module follows one shape. Code that works in place on buffers or on objects is a method, on arrays or on a class.
Its contract ties the new state to a function, such as the bytes of a frame, the meaning of a byte string or the step of
a state machine, and lemmas prove what the source promises about that function. A pointer into a buffer is an index, a
pointer to its end is a limit, and NULL is `None`. Splay trees and the SACK list are sorted sequences. In a method, a
`ghost` argument tells what was written before.

Some properties hold only under a condition. The condition is stated exactly, with an example where it fails:
`ReassemblyRuns.FinOwedIff` with `ReassemblyRuns.ShortFinRun`, `AckProcessing.StaleAckIff` with
`AckProcessing.StaleAckExample`, `FrameWalkers.PacketAckWalked` with `FrameWalkers.AckMpDisagreement`,
`AckFrames.AckIsComplete`, `Varint.EncodingRoundTripIff`, `PrefixInt.IntRoundTripIff`, `QuicPerf.ExchangeIff`,
`StreamSender.SendStream.AddToStream`, `Qpack.IndexBehindTable` and `QpackBlocks.CreateBadMethod`.

Where a comment and the code disagree, the model follows the code. The comment above the Huffman tables in
`picohttp/h3zero.c` says of both kinds of nodes that their bit is set; in the code it is set for index nodes only.

## Model

| member | source | states |
|---|---|---|
| `Varint.EncodingRoundTripIff` | picoquic/intformat.c:68-160 | an integer survives encoding and decoding exactly if it is below 2^62, whatever follows it |
| `Varint.MinimalEncoding` | picoquic/intformat.c:68-160 | a field is the shortest one for its value exactly if it is what the encoder writes |
| `Varint.Encode` | picoquic/intformat.c:90-130 | the encoder writes exactly those bytes, or nothing if they do not fit, and touches nothing else |
| `Varint.Decode` | picoquic/intformat.c:136-160 | the accumulating loop computes the big-endian value and the length, and fails exactly on short input |
| `Vectors.Varints` | picoquic/intformat.c:68-160 | the sample integers of section A.1 of RFC 9000 |
| `StreamFrames.ParseFrame` | picoquic/frames.c:778-834 | every STREAM frame is parsed back to its stream, offset, length and FIN; without a length field it must end the packet |
| `Vectors.Streams` | picoquic/frames.c:778-834 | each flag of the type alone, none and all, byte by byte |
| `StreamFrames.SegmentsAppend` | picoquic/frames.c:778-834 | the frames of two pieces of a packet are those of the first piece followed by those of the second |
| `StreamFrames.SegmentsOfRegion` | picoquic/frames.c:1304-1332 | padding and one frame carry exactly that one segment |
| `StreamFrames.FormatHeader` | picoquic/frames.c:1360-1372 | the header is written if it fits, with an offset exactly if the offset is not zero |
| `StreamSender.SendStream.AddToStream` | picoquic/sender.c:138-200 | queued data are appended to what the stream has to send; data behind a requested FIN are refused; the stream stays consistent unless data come without a FIN mark once the FIN is sent |
| `StreamSender.LeadIsFrame` | picoquic/frames.c:1304-1332 | each of the three length encodings makes padding and a complete frame that fits; without a length field the frame ends the packet |
| `Vectors.StreamLeads` | picoquic/frames.c:1304-1332 | which of the three encodings is chosen in front of data for which five bytes are left |
| `StreamSender.EncodeLength` | picoquic/frames.c:1304-1332 | the header is completed in place, or shifted by one byte of padding, to that form |
| `StreamSender.FormatPolled` | picoquic/frames.c:1334-1358 | polled data that fit are sent as one frame, with the FIN of the application, and counted twice; else nothing changes |
| `StreamSender.FormatQueued` | picoquic/frames.c:1485-1537 | a prefix of the first queued block is sent at the stream's offset; the FIN is set exactly if nothing is left and it was requested |
| `StreamSender.FormatStreamFrame` | picoquic/frames.c:1374-1552 | says when a frame is sent, and that it carries the next bytes of what was written, as many as the limits and the packet allow; a requested FIN stays requested; more data are announced exactly if the header, or any byte of the queue, does not fit |
| `Retransmit.NoSplitWrapsIff` | picoquic/frames.c:1654-1661 | for no space that is too small for a stored frame does the remaining length wrap, exactly if its header is not much longer than the one written for the first piece |
| `Retransmit.SplitLeavesData` | picoquic/frames.c:1654-1687 | minimal frames, as they are stored, meet that condition, and cutting one that does not fit leaves data on both sides |
| `Retransmit.FirstPieceFills` | picoquic/frames.c:1654-1675 | the first piece fills the packet, but for one byte if its length field is shorter than expected |
| `Retransmit.NeededIff` | picoquic/frames.c:1616-1619 | a stored frame is kept exactly if the test on its stream, its offset and its length does not drop it |
| `Retransmit.CopyWhole` | picoquic/frames.c:1618-1653 | a frame that fits is sent whole, and delimited by a length or by the end of the packet |
| `Retransmit.SplitFrame` | picoquic/frames.c:1654-1691 | the emitted and the stored frame carry adjacent pieces of the segment, the FIN stays with the last one, and a failed attempt changes nothing |
| `Retransmit.RewriteFrame` | picoquic/frames.c:1676-1681 | the stored frame is overwritten by the header of the rest and its moved data |
| `Retransmit.FormatHead` | picoquic/frames.c:1593-1699 | one step of the queue: the first frame is dropped, sent, or cut |
| `Retransmit.FormatQueue` | picoquic/frames.c:1701-1716 | the pass ends, and the pieces sent and the frames left together are what was needed of the queue; unless less than 33 bytes are left, a part of the first frame at least leaves it |
| `Retransmit.PassLowersWeight` | picoquic/frames.c:1701-1716 | a pass that makes any progress lowers what is left to send |
| `Reassembly.RecvStream.ChunkCallback` | picoquic/frames.c:836-857 | a chunk delivers what lies beyond the delivered bytes, and signals the FIN exactly when the end is reached |
| `Reassembly.RecvStream.QueueNetworkInput` | picoquic/frames.c:911-968 | the tree stays sorted, disjoint and non-empty, and gains exactly the bytes that were missing |
| `Reassembly.RecvStream.DataCallback` | picoquic/frames.c:859-909 | all chunks that are now in sequence are delivered |
| `Reassembly.StreamNetworkInput` | picoquic/frames.c:970-1054 | accepts or refuses a frame by final size and flow control, and then makes exactly its bytes known |
| `Reassembly.Deliver` | picoquic/frames.c:1003-1054 | an accepted frame makes its bytes known; the FIN is signalled when the end is reached |
| `ReassemblyRuns.ReassemblyIsExact` | picoquic/frames.c:836-1054 | after any frames of one text, in any order and overlap, the longest covered prefix is delivered, and the FIN exactly when it is known and all is delivered |
| `ReassemblyRuns.OrderDoesNotMatter` | picoquic/frames.c:836-1054 | the outcome depends on what was covered only, not on order, cutting or repetition |
| `ReassemblyRuns.ExactStep` | picoquic/frames.c:970-1054 | each accepted frame keeps that correspondence |
| `ReassemblyRuns.NoFinalSizeError` | picoquic/frames.c:988-993 | a frame of the text is never refused for its final size |
| `ReassemblyRuns.DuplicateIgnored` | picoquic/frames.c:836-857 | a frame inside the delivered part delivers nothing |
| `ReassemblyRuns.NothingAfterFin` | picoquic/frames.c:836-857 | nothing is delivered or signalled again after the FIN |
| `ReassemblyRuns.FinOwedStep` | picoquic/frames.c:993-1033 | the FIN event is due but not given after a frame, exactly if the frame is a first FIN below the delivered end, or the event was due and the frame ends below it too; a frame that ends where the data end brings the event |
| `ReassemblyRuns.FinOwedIff` | picoquic/frames.c:993-1033 | in every run, with any accepted frames, the event is due exactly if there was such a first FIN and every later frame ended below the delivered end |
| `ReassemblyRuns.ShortFinRun` | picoquic/frames.c:993-1033 | a run in which the event is late |
| `Endpoints.Write` | picoquic/sender.c:138-200 | the application's call leads from a state that the stream represents to the next one |
| `Endpoints.Format` | picoquic/frames.c:1374-1552 | the call that formats a frame makes a step of the transfer, or changes nothing |
| `Endpoints.Repeat` | picoquic/frames.c:1701-1716 | the pass over the stored frames makes a step of the transfer, and progress if 33 bytes are left |
| `Endpoints.SendStored` | picoquic/frames.c:1593-1716 | building packets of one size, one after another, ends with nothing stored, in a state that the transfer reaches |
| `Endpoints.CopyBeforeRetransmit` | picoquic/sender.c:1438-1490 | the loop over a lost packet of STREAM frames and padding queues exactly its frames that are not acknowledged: a step of the transfer |
| `Endpoints.Arrive` | picoquic/frames.c:970-1104 | the call for a frame that arrives makes a step of the transfer, or fails for flow control, never for its final size |
| `Endpoints.CheckedIsAcked` | picoquic/frames.c:1616-1619 | what is dropped, as its stream is deleted or by the test on the acknowledged ranges, is acknowledged in full |
| `Endpoints.UnneededIff` | picoquic/frames.c:1616-1619 | a stored frame is dropped exactly if its stream is deleted, or all its positions and the next one are in the acknowledged ranges |
| `Endpoints.NeedsRepeatIff` | picoquic/frames.c:2779-2818 | a lost frame is queued again exactly if its stream is not deleted and one of its positions is not in the acknowledged ranges |
| `Endpoints.StreamAcked` | picoquic/frames.c:101-116 | a stream that may be deleted is acknowledged up to the position of its FIN |
| `Endpoints.ProcessAckOfFrames` | picoquic/frames.c:3020-3131 | the loop over a packet of STREAM frames and padding that the peer received makes a step of the transfer, and the ranges of the streams hold exactly what is acknowledged |
| `Endpoints.ProcessAckOfStreamFrame` | picoquic/frames.c:2987-3015 | the ranges of a stream gain exactly the positions of an acknowledged frame, that of the FIN included |
| `Transfer.PassIsRepeat` | picoquic/frames.c:1701-1716 | what a pass over the stored frames leaves and sends is a step of the transfer |
| `Transfer.StepKeeps` | picoquic/frames.c:836-1104 | writing, formatting, repeating, sending, losing, acknowledging and delivering, in any order and number, keep the invariant |
| `Transfer.DeliveredIsPrefix` | picoquic/frames.c:836-1104 | in every run the delivered bytes are a prefix of the written ones, and all of them with the FIN |
| `Transfer.NeverFinalSizeError` | picoquic/frames.c:988-993 | in every run no frame that can arrive is refused for its final size |
| `Conservation.PassKeepsPositions` | picoquic/frames.c:1593-1716 | what a pass sends, leaves and drops as acknowledged is all that was stored |
| `Conservation.NothingIsForgotten` | picoquic/frames.c:1593-1716 | in every run each byte that was sent, and each FIN, was received, or is in the packet being built, in flight, or stored; only what was received is acknowledged |
| `Conservation.EverythingArrives` | picoquic/frames.c:836-1104 | in every run, once nothing waits, exactly what was sent is delivered, with the FIN event exactly where the FIN was sent |
| `Completion.AcceptAccepts` | picoquic/frames.c:970-1054 | there is a next state of the receiver for every frame |
| `Completion.EveryRunCanFinish` | picoquic/frames.c:836-1104 | every run can be continued, without the applications and with packets of at most any size from 33 to 16383 bytes, to one where exactly what was sent is delivered on every stream |
| `Transfer.PiecesFrom` | picoquic/frames.c:1654-1691 | the pieces of a split frame are adjacent pieces of the same text |
| `SackList.SackTree.Update` | picoquic/sacks.c:176-235 | the list stays sorted with gaps, gains exactly the range, and reports a duplicate exactly if nothing was new |
| `SackList.SackTree.AckOfAck` | picoquic/sacks.c:324-375 | exactly these numbers leave the list: a whole range below the top one that matches, or the start of the top range up to the end of the range or up to its last number |
| `SackList.CheckIff` | picoquic/sacks.c:305-317 | one range holds all numbers of an interval exactly if the list holds them all |
| `AckFrames.AckRoundTrip` | picoquic/frames.c:1916-1959 | an ACK frame decodes to its delay, ranges and counts, whatever follows it |
| `Vectors.Acks` | picoquic/frames.c:3358-3476 | two ACK frames byte by byte, one with counts |
| `AckFrames.FormatBlocks` | picoquic/frames.c:3411-3452 | the highest ranges that are not skipped are written, as many as fit and at most 32; more data are left exactly if one of them does not fit |
| `AckFrames.FormatAck` | picoquic/frames.c:3358-3476 | a frame is written exactly if its first part fits; then with these ranges, and with the counts exactly if they still fit; else the type is changed back |
| `AckFrames.AckIsTruthful` | picoquic/frames.c:3358-3476 | the peer decodes whole ranges of the list, starting with the top one: it never sees an unreceived number acknowledged |
| `AckFrames.AckIsComplete` | picoquic/frames.c:3358-3476 | the peer decodes exactly the numbers of the list if and only if nothing is skipped, there are at most 33 ranges, and they fit; for these, no more data are left exactly if the counts fit too |
| `AckFrames.ReadRanges` | picoquic/frames.c:3275-3325 | the loop over gaps and lengths reads these ranges, and stops where they are malformed |
| `AckProcessing.PacketContext.FindAckedPacket` | picoquic/frames.c:2605-2624 | for a new largest number, the walk starts below which no packet is too new; else it starts at the oldest packet |
| `AckProcessing.PacketContext.ProcessAckRange` | picoquic/frames.c:3134-3214 | the walk ends, and removes and credits the packets of the range, or meets an ACK trap |
| `AckProcessing.PacketContext.ProcessAck` | picoquic/frames.c:3252-3327 | an ACK is accepted exactly if it covers no trap in the part searched; then exactly the packets in its ranges are gone from that part, and each path is credited with their bytes |
| `AckProcessing.UnackedRemaining` | picoquic/frames.c:3134-3214 | the packets left are exactly those in no range, in their order |
| `AckProcessing.AckedOnOneMore` | picoquic/frames.c:3134-3163 | acknowledging one more number credits one more packet |
| `AckProcessing.StaleAckIff` | picoquic/frames.c:2608-2621 | an ACK without a new largest number is applied in full exactly if it covers no packet behind the oldest |
| `AckProcessing.StaleAckExample` | picoquic/frames.c:2608-2621 | an ACK that is not |
| `AckProcessing.DecodedIsStepwise` | picoquic/frames.c:3275-3325 | ranges that are decoded are descending and disjoint, and start at the largest number |
| `AckProcessing.OnlyReceivedAreRemoved` | picoquic/frames.c:3216-3476 | a packet that is removed by an ACK, as the peer writes it from its list, is one that the peer has received |
| `RecvFlow.RunKeeps` | picoquic/frames.c:182-206 | in every run without error `data_received` is the sum of `fin_offset` over all streams ever seen, no limit is exceeded, limits and offsets never fall, and after a FIN the offset stays |
| `RecvFlow.StepKeeps` | picoquic/frames.c:182-298 | each frame, read, limit or deletion keeps this |
| `RecvFlow.DataMeaning` | picoquic/frames.c:970-1003 | a STREAM frame is refused exactly if it breaks a known final size or exceeds a limit of the stream or the connection; what it adds is counted, and no other stream changes |
| `RecvFlow.ResetMeaning` | picoquic/frames.c:252-298 | the same for a RESET_STREAM frame, of which the final size is checked even if it is not new |
| `RecvFlow.NeverBlocked` | picoquic/frames.c:3900-3928 | a peer that used all it may send, of which all is read, can go on once the limits are renewed |
| `RecvFlow.InitialLimits` | picoquic/quicctx.c:2603-2640 | the limits of new streams for the four kinds of ids, on either side |
| `RecvFlow.Receiver.FlowControlCheck` | picoquic/frames.c:182-206 | the check by subtraction is the one by sums, and nothing wraps in 64 bits |
| `RecvFlow.Receiver.StreamNetworkInput` | picoquic/frames.c:970-1003 | the accounting of a STREAM frame, with exactly these refusals |
| `RecvFlow.Receiver.DecodeResetStream` | picoquic/frames.c:252-298 | the accounting of a RESET_STREAM frame, with exactly these refusals |
| `RecvFlow.Receiver.FormatMaxData` | picoquic/frames.c:3764-3780 | a MAX_DATA frame raises the limit of the connection by the increase |
| `RecvFlow.Receiver.OpenFlowControl` | picoquic/sender.c:208-240 | the application opens the limit of a stream to what it expects, and that of the connection by as much, exactly if it is not open so far |
| `RecvFlow.Receiver.RenewStreamWindow` | picoquic/frames.c:3900-3928 | the limit of a stream rises by the window exactly if the stream is open and more than half of the limit is read; nothing else changes |
| `SendFlow.Sender.FormatFrame` | picoquic/frames.c:1413-1453 | what a frame carries is counted for its stream and the connection, within both limits, and `data_sent` stays the sum over the streams |
| `SendFlow.Sender.DecodeMaxData` | picoquic/frames.c:3782-3794 | the limit of the connection rises or stays |
| `SendFlow.Sender.DecodeMaxStreamData` | picoquic/frames.c:3844-3873 | the limit of a stream rises or stays |
| `SendFlow.Sender.UpdateInitialRemote` | picoquic/frames.c:140-164 | the parameters of the peer raise the limits of the streams opened before |
| `SendFlow.Sender.CreateStream` | picoquic/quicctx.c:2603-2640 | a new stream starts at offset 0 with the limit for its kind |
| `SendFlow.InitialLimits` | picoquic/quicctx.c:2603-2640 | these limits for the four kinds of ids, from the parameters of the peer |
| `Datagram.DatagramRoundTrip` | picoquic/frames.c:4335-4351 | a DATAGRAM frame is parsed back to its data |
| `Vectors.Datagrams` | picoquic/frames.c:4335-4351 | a DATAGRAM frame with and without length, byte by byte |
| `Datagram.RegionRoundTrip` | picoquic/frames.c:4473-4503 | behind the padding there is exactly the datagram; without a length field it ends the packet |
| `Datagram.ProvideDatagram` | picoquic/frames.c:4473-4503 | the buffer holds that region exactly if the length is allowed |
| `Datagram.FormatReadyDatagram` | picoquic/frames.c:4513-4550 | nothing, or one such region, is written |
| `FrameWalkers.DecodedIsSkipped` | picoquic/frames.c:5374-5513 | a decoded frame is skipped at the same place, and called a pure ACK exactly if the decoder asks for no ACK |
| `FrameWalkers.DecodedIsAckWalked` | picoquic/frames.c:3020-3131 | a decoded frame is left at the same place by the walk over acknowledged packets, for a multipath ACK exactly if both sides know its path alike or its ranges are well-formed |
| `FrameWalkers.PacketSkipped` | picoquic/frames.c:4983-5237 | a decoded packet is skipped at the same boundaries, and is a pure ACK exactly if no frame asks for an ACK |
| `FrameWalkers.PacketAckWalked` | picoquic/frames.c:3020-3131 | a decoded packet is walked at the same boundaries, once it is acknowledged, exactly if the sides agree about its multipath ACK frames |
| `FrameWalkers.AckMpDisagreement` | picoquic/frames.c:2746-2776 | a multipath ACK for which they do not |
| `FrameWalkers.WalkAckIsDecodeAck` | picoquic/frames.c:2626-2743 | the size of an ACK frame is what the ACK decoder consumes |
| `FrameWalkers.RangesSkipped` | picoquic/frames.c:5299-5336 | well-formed ranges are skipped at the same place |
| `FrameWalkers.DecodeFrames` | picoquic/frames.c:4983-5237 | the loop finds these boundaries and sets `ack_needed`; `FrameWire.PacketDecoded` says for which packets |
| `FrameWire.FrameDecoded` | picoquic/frames.c:5000-5200 | each kind of frame, as it is written, is decoded to exactly its bytes if it may be in a packet of the epoch, and refused else, whatever follows |
| `FrameWire.FrameAsks` | picoquic/frames.c:5000-5200 | the kinds of frames that ask for an acknowledgement: all but PADDING, ACK, PATH_CHALLENGE, PATH_RESPONSE and TIME_STAMP |
| `FrameWire.PacketDecoded` | picoquic/frames.c:4983-5237 | a packet of such frames is accepted exactly if each may be in it; the frames end where they were written to end, and `ack_needed` is set exactly if one asks for it |
| `FrameWire.PacketWalked` | picoquic/frames.c:5374-5513 | any packet of such frames is skipped to the same places, and is a pure ACK exactly if none asks for an acknowledgement |
| `FrameWalkers.ProcessAckOfFrames` | picoquic/frames.c:3020-3131 | the loop finds these boundaries, and reports no error exactly if it reaches the end or a place where no type can be read |
| `H3Filter.DataStream.ReceiveChunks` | picohttp/demoserver.c:519-547 | over any number of chunks, the state or the error is what all bytes mean as one string |
| `H3Filter.CutsAgree` | picohttp/h3zero.c:899-1046 | two filters that receive the same bytes, cut in different ways, end with the same error, header, trailer and payload |
| `H3Stream.FrameMeaning` | picohttp/h3zero.c:935-1042 | a frame is refused by its type, its length and what came before it, or its content is taken as a whole |
| `H3Stream.UnknownFrameIgnored` | picohttp/h3zero.c:1033-1041 | frames of unknown types change nothing |
| `H3Stream.RequestMeaning` | picohttp/h3zero.c:899-1046 | a HEADERS frame and DATA frames give the parsed header and the concatenated payload |
| `H3Stream.MessageMeaning` | picohttp/h3zero.c:899-1046 | with a HEADERS frame behind the DATA frames, the first block is the header and the last one the trailer |
| `H3Stream.FrameFails` | picohttp/h3zero.c:935-1022 | which frames stop the stream, and with which error code |
| `H3Filter.DataStream.ReadFrameHeader` | picohttp/h3zero.c:910-955 | type and length are known exactly when all bytes of the frame header are there; a stale byte in the buffer does not matter |
| `H3Filter.DataStream.ParseHeader` | picohttp/h3zero.c:910-990 | the bytes of a frame header are consumed as they mean |
| `H3Filter.DataStream.TakeBlock` | picohttp/h3zero.c:998-1022 | a header block is collected across chunks, and parsed at its end |
| `H3Filter.DataStream.ParseContent` | picohttp/h3zero.c:990-1042 | the content of a frame is consumed as it means, or left to the caller for DATA |
| `H3Filter.DataStream.ParseDataStream` | picohttp/h3zero.c:899-1046 | each call keeps the meaning of the remaining bytes, and either consumes some or ends a frame |
| `H3Filter.DataStream.Receive` | picohttp/demoserver.c:519-547 | the driver loop ends, and after each chunk the state, or the error, is what all bytes mean |
| `H3Requests.PostArrives` | picohttp/h3zero.c:725-753 | a created POST request and its content, cut in any way, reach the server as path, content type and content |
| `H3Requests.ResponseArrives` | picohttp/h3zero.c:795-818 | a created response and its content, cut in any way, reach the client as status, content type and content |
| `H3Requests.HuffmanPathFound` | picohttp/h3zero.c:406-476 | a path in the Huffman code is found as it was before, up to 256 octets |
| `PrefixInt.IntRoundTripIff` | picohttp/h3zero.c:103-166 | an integer survives, for every mask, exactly if it exceeds the mask by less than 2^63 |
| `Vectors.PrefixedIntegers` | picohttp/h3zero.c:103-166 | 1337 as in section C.1.2 of RFC 7541, behind four bits, and shorter integers |
| `PrefixInt.IntEncode` | picohttp/h3zero.c:103-130 | exactly these bytes are written below the prefix, if they fit |
| `PrefixInt.IntDecode` | picohttp/h3zero.c:132-166 | the shifting loop computes the integer within 64 bits, and fails on long or short input |
| `Qpack.ParseStatus` | picohttp/h3zero.c:366-382 | the decimal value, or -1 |
| `Qpack.ReadText` | picohttp/h3zero.c:421-429 | a string is Huffman decoded if it is so marked and can be |
| `Qpack.ReadField` | picohttp/h3zero.c:523-628 | one field line is read as `QpackTable.LineRead` says it means, and each kept field at most once |
| `QpackTable.LineRead` | picohttp/h3zero.c:523-628 | an indexed row, a reference with a value, and a name with a value have the effect of the field they name, with strings plain or in the Huffman code; the static table is that of Appendix A of RFC 9204 |
| `QpackTable.LineRefused` | picohttp/h3zero.c:523-628 | rows that do not exist and references to a dynamic table are refused |
| `QpackTable.BlockRead` | picohttp/h3zero.c:507-629 | a block means its fields in whichever form they are written; the base is ignored |
| `QpackTable.SetByRow` | picohttp/h3zero.c:172-271 | a row sets what its name and its value set |
| `QpackTable.SetByName` | picohttp/h3zero.c:334-382 | the four names that are kept, and the numbers of methods, content types and statuses |
| `QpackTable.MethodBytes` | picohttp/h3zero.c:334-347 | the seven methods, byte by byte |
| `QpackTable.RootRequest` | picohttp/h3zero.c:507-629 | the shortest request is a GET of "/" |
| `Qpack.IndexBehindTable` | picohttp/h3zero.c:523-628 | the test of an index lets exactly one pass that has no row, and both kinds of reference can carry it; a block that ends behind a reference is refused |
| `Qpack.ReadBlock` | picohttp/h3zero.c:507-629 | the loop reads a header block as `QpackTable.BlockRead` says it means, or refuses it |
| `QpackBlocks.GetRoundTrip` | picohttp/h3zero.c:762-786 | a GET request is parsed to exactly its path, whatever host and user agent are |
| `QpackBlocks.PostRoundTrip` | picohttp/h3zero.c:725-753 | a POST request is parsed to its path and content type |
| `QpackBlocks.ResponseRoundTrip` | picohttp/h3zero.c:795-843 | a response is parsed to its status and content type |
| `QpackBlocks.BadMethodRoundTrip` | picohttp/h3zero.c:850-876 | the response with a literal status is parsed to 405 |
| `Vectors.HeaderBlocks` | picohttp/h3zero.c:682-876 | the created blocks, byte by byte |
| `QpackBlocks.LiteralEncode` | picohttp/h3zero.c:682-698 | a name reference and a value are appended, or nothing more once something did not fit |
| `QpackBlocks.FindContentType` | picohttp/h3zero.c:705-711 | the search finds the first row with a content type |
| `QpackBlocks.CreateRequest` | picohttp/h3zero.c:762-786 | exactly the request block is written, if and only if it fits |
| `QpackBlocks.CreatePost` | picohttp/h3zero.c:725-753 | exactly the request block is written, if it fits and the content type has a row |
| `QpackBlocks.CreateStatus` | picohttp/h3zero.c:826-843 | exactly the response block is written, if and only if it fits |
| `QpackBlocks.CreateResponse` | picohttp/h3zero.c:795-818 | exactly the response block with its content type is written |
| `QpackBlocks.CreateBadMethod` | picohttp/h3zero.c:850-876 | exactly the block is written, if it fits; four stores are not checked, and pass the end exactly if four to seven bytes are free |
| `HuffmanTrie.WellFormed` | picohttp/h3zero.c:1097-1677 | the two flat tables are a prefix trie in pre-order, with the code of each octet from Appendix B of RFC 7541 above its terminal |
| `HuffmanTrie.EveryCode` | picohttp/h3zero.c:1097-1677 | along the bits of its code every octet is reached |
| `Huffman.RunString` | picohttp/h3zero.c:1679-1744 | the concatenated codes of a string are decoded to it, or to as much of it as fits |
| `Huffman.HuffmanRoundTrip` | picohttp/h3zero.c:1679-1744 | the same for a padded byte string; nothing is refused |
| `Vectors.HuffmanStrings` | picohttp/h3zero.c:1679-1744 | two coded strings, one from section C.6.1 of RFC 7541 |
| `Huffman.EncodingExists` | picohttp/h3zero.c:1679-1744 | every string has such a byte string |
| `Huffman.AddByte` | picohttp/h3zero.c:1694-1700 | a byte or-ed into the register shares no bit with the unread ones |
| `Huffman.TakeBit` | picohttp/h3zero.c:1708-1710 | the top bit is the next one, and the shift drops it |
| `Huffman.HuffmanDecode` | picohttp/h3zero.c:1679-1744 | the register that is refilled byte by byte gives the same result as reading one bit at a time |
| `Cubic.CubicRoot` | picoquic/cubic.c:74-99 | both scaling loops end, and the cube of the result is between x and 1.04 x |
| `Cubic.NewtonContracts` | picoquic/cubic.c:92-96 | one Newton step from within a factor 8 leads to within 2.85, then 1.3715, then 1.04, and never below |
| `Cubic.CurveStart` | picoquic/cubic.c:102-122 | an epoch starts at 0.87 to 0.875 of the last maximum |
| `Cubic.CurveRises` | picoquic/cubic.c:102-110 | the curve never falls |
| `Cubic.CurveShape` | picoquic/cubic.c:102-110 | over a whole epoch the curve stays above 0.87 of the maximum, and passes the maximum after K seconds |
| `Cubic.KCubed` | picoquic/cubic.c:114-122 | the cube of K is 0.3125 of the maximum, or up to 4 % more |
| `Cubic.CubicState.EnterAvoidance` | picoquic/cubic.c:114-122 | K is that root, and the epoch starts now |
| `Cubic.CubicState.EnterRecovery` | picoquic/cubic.c:126-182 | the window drops to at most 7/8 and not below half, is at most the new threshold, and not far below it; it is exactly the larger of the curve at its start and half of the old window; small windows and timeouts restart slow start |
| `Cubic.CubicState.CorrectSpurious` | picoquic/cubic.c:190-203 | the previous epoch goes on with its maximum, and the window is exactly where its curve is now |
| `NewReno.RunSound` | picoquic/newreno.c:36-176 | in every run the remainder is below the window, window and threshold are at least the minimum, and congestion avoidance implies a window of at least the threshold |
| `NewReno.GrowthTelescopes` | picoquic/newreno.c:109-115 | the carried remainders telescope |
| `NewReno.GrowsAtMostOnePacket` | picoquic/newreno.c:109-115 | acknowledging one window adds at most one packet to it |
| `NewReno.GrowsAtLeastOnePacket` | picoquic/newreno.c:109-115 | acknowledging one window, as it is at the end, adds at least one packet to it |
| `NewReno.LossHalves` | picoquic/newreno.c:47-70 | only losses and resets shrink the window, a loss to half of it or the minimum |
| `NewReno.LossMeaning` | picoquic/newreno.c:117-137 | a loss changes nothing in the round trip of the last one, on one path or several, and else starts a round with half of the window |
| `NewReno.OneReduction` | picoquic/newreno.c:117-137 | after a loss a run goes on as without the further losses of its round trip, and the window does not shrink again in it |
| `NewReno.SpuriousMeaning` | picoquic/newreno.c:138-166 | a spurious repeat counts within that round trip only, and not at its very end |
| `NewReno.SpuriousUndoes` | picoquic/newreno.c:138-166 | it brings the window back to what it was before the loss, down to an even number |
| `NewReno.SlowStartDoubles` | picoquic/newreno.c:101-108 | in slow start, acknowledging the window doubles it |
| `NewReno.StartWindows` | picoquic/newreno.c:36-42 | the window at the start, and that for long round trips |
| `NewReno.MeasuredWindow` | picoquic/newreno.c:75-86 | a seed, a bandwidth and a rising round-trip time before the first loss |
| `NewReno.NothingLearned` | picoquic/newreno.c:235-240 | acknowledgements of a sender that does not use its window change nothing |
| `NewReno.NewRenoState.SimEnterRecovery` | picoquic/newreno.c:47-70 | the new state on entering recovery |
| `NewReno.NewRenoState.SimNotifyInPlace` | picoquic/newreno.c:91-176 | each notification is this step, and keeps the invariant |
| `NewReno.NewRenoState.NotifyInPlace` | picoquic/newreno.c:217-310 | so is each notification of the algorithm; the window of the path is always that of the simulation |
| `Filters.BbrState.ShiftFilter` | picoquic/bbr.c:523-538 | the slots move up in place, and the estimate is the maximum of the rounds that are left |
| `Filters.BbrState.UpdateBtlBw` | picoquic/bbr.c:494-547 | the estimate is the maximum of the samples of the last ten rounds, each raised to the least number that is not below its floors |
| `Filters.BbrState.SeedBdp` | picoquic/bbr.c:730-743 | the seed counts as a sample of the current round |
| `Filters.SlotsAreRounds` | picoquic/bbr.c:523-538 | the maximum over the slots is the maximum over the samples of as many rounds |
| `Filters.MinMaxRtt.Filter` | picoquic/cc_common.c:48-74 | minimum and maximum are those of the last seven samples, or of all |
| `Filters.RingIsWindow` | picoquic/cc_common.c:48-74 | the slots in use hold exactly the samples of the window |
| `QuicPerf.ExchangeIff` | picohttp/quicperf.c:379-537 | at the end of every run the server has sent the size it read; there is no error exactly if the post has room for the header or nothing is asked for |
| `QuicPerf.ExchangeCompletes` | picohttp/quicperf.c:420-485 | with room for the header, no run has an error and the client gets exactly what it asked for |
| `QuicPerf.Progress` | picohttp/quicperf.c:420-537 | every step brings the end nearer, and there is a step until the client is done |
| `QuicPerf.ClientSends` | picohttp/quicperf.c:494-537 | the client's call for data makes a step of the exchange |
| `QuicPerf.ServerReceives` | picohttp/quicperf.c:465-485 | so does a chunk that arrives at the server |
| `QuicPerf.ServerSends` | picohttp/quicperf.c:494-537 | so does the server's call for data |
| `QuicPerf.ClientReceives` | picohttp/quicperf.c:420-463 | so does a chunk that arrives at the client, with the same error |
| `QuicPerf.StreamCtx.Client` | picohttp/quicperf.c:379-389 | the header is the size in eight bytes, most significant first |
| `Vectors.PerfPosts` | picohttp/quicperf.c:379-389 | the header and the filler, byte by byte |
| `QuicPerf.PortionIs` | picohttp/quicperf.c:494-510 | all that fits is sent, and the mark comes with a call that has more space than there are bytes left |
| `QuicPerf.StreamCtx.ClientSend` | picohttp/quicperf.c:494-537 | the next bytes of the post are written, with the mark on the attempt to go beyond its end |
| `QuicPerf.StreamCtx.ServerSend` | picohttp/quicperf.c:494-537 | as many bytes as are due, and the mark behind them |
| `QuicPerf.StreamCtx.ServerReceive` | picohttp/quicperf.c:465-485 | the size is that of the first eight bytes, however they are cut |
| `QuicPerf.StreamCtx.ClientReceive` | picohttp/quicperf.c:420-463 | the bytes are counted, and checked at the mark |

## Left out

- Stream limits: that a stream id is within the number of streams allowed.
- Discarded streams, STOP_SENDING, sent resets and direct-receive callbacks; callbacks of the application that fail or
  call back; failing allocations.
- `Endpoints.Write`: the application does not write behind the FIN that was sent; the code does not check it, and
  `StreamSender.SendStream.AddToStream` says what then fails.
- `Endpoints.Format`: the stream must be known to the state, if only by an empty write.
- `Endpoints.CopyBeforeRetransmit`: packets with other frames, and streams that were reset; also for
  `Endpoints.CheckedIsAcked` and `Endpoints.ProcessAckOfFrames`.
- `Endpoints.ProcessAckOfFrames`: that only packets which the peer received are acknowledged is required here;
  `AckProcessing.OnlyReceivedAreRemoved` shows it for packet numbers, which the transfer does not have.
- `Endpoints.ProcessAckOfStreamFrame`: requires data or the FIN, which every frame that is sent carries; for an empty
  frame at offset 0 the code's upper bound wraps.
- `StreamSender.EncodeLength`: requires a space below 16384 bytes, as packets have; the code reserves two bytes for the
  length.
- `ReassemblyRuns.ReassemblyIsExact`: speaks of frames of one text; the final-size checks of section 4.5 of RFC 9000 are
  not all in the code, as `ReassemblyRuns.FinOwedIff` shows.
- `Transfer.DeliveredIsPrefix`: flow control on the receiving side, repeats in advance of a loss, and the choice of what
  to send next are not part of the state machine; any order of its steps is a run.
- `Completion.EveryRunCanFinish`: says that the end can be reached, not that timers and the network will reach it.
- `SackList.SackTree.Update`: times, counters of how often a range was sent, and the acknowledgement horizon.
- `AckFrames.FormatAck`: the time stamp frame in front of the ACK, multipath ACK frames, and the rule that picks the
  ranges; `skip` is arbitrary.
- `AckProcessing.PacketContext.ProcessAck`: RTT samples, spurious retransmissions, the connection state and the
  notifications of congestion control; ranges that are read before a malformed one are not applied here.
- `RecvFlow.RunKeeps`: limits stay below 2^62, where the code has no check of its own, and streams are not refused for
  their number.
- `SendFlow.Sender.FormatFrame`: the limits that a resumed session remembers before the handshake ends.
- `SendFlow.Sender.DecodeMaxStreamData`: looking up or creating the stream.
- `FrameWalkers.DecodeFrames`: what a frame does to the connection; that the connection refuses a well-formed frame is an
  arbitrary predicate.
- `FrameWire.FrameDecoded`: integers are in their shortest form, as this implementation writes them, and ACK frames of a
  single path have at most 33 ranges; other forms of the same frames are not listed.
- `FrameWalkers.ProcessAckOfFrames`: callbacks for datagrams, and what is recorded as acknowledged.
- `Qpack.ReadField`: index 99 of the static table, which the test lets pass and the table does not have, is refused; the
  code reads one byte behind a block that ends with a name reference, before it refuses it; the parts of a block that is
  refused are not modelled, and a status is an unbounded number.
- `QpackBlocks.CreateBadMethod`: there is memory for the four stores behind the end.
- `H3Filter.DataStream.Receive`: the callback per path, the request that is processed at the end of the stream, and a
  block of length zero for which the allocation gives no memory.
- `Huffman.HuffmanRoundTrip`: refusing a padding of more than seven bits, which the decoder does not do.
- `Cubic.CubicRoot`: floating-point rounding, also everywhere else in that module; HyStart and the notifications that do
  not change the curve.
- `NewReno.OneReduction`: a reset within the round trip, which starts over; times are below 2^64.
- `RecvFlow.NeverBlocked`: says that the limits allow it, not when the frames are sent.
- `NewReno.NewRenoState.NotifyInPlace`: products and sums that exceed 64 bits, the test that leaves slow start, pacing.
- `Filters.BbrState.UpdateBtlBw`: the long-term bandwidth sampler, and the state machine of BBR.
- `QuicPerf.ExchangeIff`: scenarios of infinite size, stop-sending, and starting one stream after another.
- Loss and duplicates on the wire of quicperf: the streams below are reliable, which `Transfer` is about.
- The TLS handshake, packet protection, connection ids, tickets, sockets, logging, file serving and HTTP/0.9.
- The congestion controllers D-Cubic, FastCC and BBR beyond its filter.
