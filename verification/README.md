# Spook and libutil, modelled and verified

Dafny models of the `spook` RTSP/RTP streaming server and of two utilities of
mp4v2's libutil, with proofs of what they promise. `dafny verify dfyconfig.toml`
checks the whole project. Objects that the C code updates in place are classes
whose methods are proved against value-level specifications; the lemmas about
those specifications state the properties. What other code, other threads, the
network and the clock contribute is arbitrary: parameters, arbitrary choices,
or arbitrary schedules of steps.

- **Sending H.264.** `AnnexB` splits an encoded frame into NAL units, `FuA`
  turns them into RTP payloads and has the receiver of sections 5.6 and 5.8 of
  RFC 6184, `Rtp` numbers the packets (section 5.1 of RFC 3550), `Wire` frames
  them on the RTSP connection between the replies (section 10.12 of RFC 2326)
  and has the client, which cuts frames by their headers and replies by their
  empty line and their Content-Length. `Tcp` is the send buffer that partial
  writes drain. Over any run of frames, reports, replies with and without a
  body and partial writes, with any number of tracks on the connection, the
  client gets exactly the messages that were accepted and on each track the
  packets that were not refused (`Tcp.Conn.Traffic`, `Rtp.Traffic`). `H264Send`
  puts them together: from the bytes a fully successful send puts on the
  connection a client gets back exactly the frame's NAL units. `H264Stream` is
  a stream of frames on a connection that refuses packets: a receiver that
  gives up fragments when a sequence number is missing gets exactly the NAL
  units whose packets were all queued. `RawAudio` sends blocks of samples.
- **Frames between threads.** `Exchanger` is the ring of slots shared with a
  capture thread, in the micro-steps of the unlocked `deliver_frame`;
  `FrameBooks` and `FrameHeap` are the reference-counted frames and their ring,
  under any schedule of the steps that mutexes make atomic.
- **Events.** `SoftQueue` is the bounded queue with its two circular lists and
  its pipe. `EventList`, `EventTrace` and `EventLoop` are the event lists, the
  runs of the loop seen from outside, and the loop with arbitrary callbacks,
  the dispatch of a queue's listeners among them.
- **Ownership.** `RtspWorld` and `RtspServer` are sessions, endpoints,
  interleaved channels and connections, with every request and event that
  changes them. Freed addresses may be handed out again.
- **Text and codecs.** `Pmsg` and `PmsgParser` (messages printed and parsed in
  place), `PmsgReply` (replies put together in a buffer of fixed size), `Base64`
  (decoded in place, piece by piece), `Md5Transform`, `Md5` and `Md5Value`, and `Crc`
  (the table-driven checksum of libutil).
- **Smaller cores.** `Streams` (who wants frames from whom), `AudioRing`,
  `UdpPorts`, and `Timecode` (libutil).

Where the code falls short of what its comments or its interface suggest, the
code is modelled as it is and a lemma says exactly when it does what is meant:

- A load of `JK_BitStreamLoadNALU_FM` makes no progress if and only if the first
  start code lies at least its own length into the buffer (`LoadStallsIff`). What
  is true of the first load decides about all: the loads come to an end if and
  only if the first of them makes progress (`EndsIff`). A NAL unit is recovered
  if and only if its start code has four bytes (`RecoveredIffFourByteCode`).
- A unit of fewer than five bytes, such as a start code with nothing behind it,
  gets a part of negative length, and `interleave_send` queues a frame whose
  header does not count what follows: a packet becomes a whole frame if and only
  if its unit has at least five bytes, or by chance has four with exactly 16 bytes
  of room (`UnitFramedIff`), and the client is out of step from there on
  (`ShortMisread`).
- `JK_BitStreamLoadNALU_FM` copies into the 300 * 1024 bytes of its unit buffer
  without looking at their number: `h263_send` overruns the buffer if and only if
  it comes to a unit that is longer (`H264Send.Sender.Send`, for well-formed frames
  `FrameFits`). Frames of the default 400 * 1024 bytes have room for such a unit
  (`LongNalOverruns`).
- The marker is set on every packet but SEI, parameter sets and fragments before
  the last: it ends the frame, as RFC 6184 wants, if and only if the frame is SEI
  and parameter sets and then one NAL unit (`MarkedAtEndIff`); a picture of several
  slices is marked within.
- A sender report comes with a source description whose length says 20 bytes
  instead of its 24, so that a receiver that checks lengths refuses both
  (`ReportCompound`).
- `parse_pmsg` stores headers into an array of 32 without counting: it overruns
  the array if and only if the header loop begins a 33rd line, and 214 bytes
  suffice for that (`ParsePmsg`, `RequestOverruns`).
- `sq_run` calls listeners without looking at their flags. A dispatch is safe if
  and only if no listener that is reached is new, was removed by an earlier
  callback of the same dispatch, or had been removed before and not been revived
  (`SoftDispatchSafeIff`). When callbacks leave alone the listeners behind them,
  that can be told beforehand: none that is reached is removed or new
  (`HandsOffSafeIff`); `ListenersWronged` has inputs that go wrong.
- `exchanger_read` goes on to take a frame when its pipe fails; it is the right
  one if and only if one has been delivered (`FrameWithoutByte`).
- `handle_TEARDOWN` of a track without an endpoint tears down the whole session,
  and `handle_DESCRIBE` leaves its session behind when it answers 401.
- `connect_udp_endpoint` does not close its sockets when the ports run out.
- `parse` of a timecode counts semicolons as separators and then refuses every
  text that has one (`SemicolonRefused`).

Two functions do not check what their callers in fact never break:

- `tcp_send_pmsg` prints into 2048 bytes, which by itself it would overrun if and
  only if the head and its NUL do not fit (`PrintPmsg`). The strings of a reply lie
  in a message of 256 or 512 bytes, with at most 32 headers, and so no reply comes
  near (`PrintedLength`, `PmsgReply.Reply.Send`).
- `interleave_send` puts the length of a frame into 16 bits, so that a frame is
  read back if and only if its payload is shorter than 65536 bytes
  (`InterleavedRecoveredIff`). What its callers hand it is: unless a unit is
  short, the messages that `H264Send.Sender.Send` adds are well formed, those of
  `RawAudio.Send` always are, and reports have 52 bytes.

## Model

| member | source | states |
|---|---|---|
| `AnnexB.FindStartCode` | spook/rtp-h263.c:210-234 | Finds the first start code at or after an offset, with all the zeros in front of its 1, or establishes that there is none |
| `AnnexB.Bitstream.constructor` | spook/rtp-h263.c:247-256 | The stream is set up over the rest of the frame with nothing used |
| `AnnexB.Bitstream.LoadNalu` | spook/rtp-h263.c:265-301 | Fails if and only if there is no start code; otherwise takes the bytes from the front of the buffer up to the second start code, or all of them, and copies them, or overruns the unit buffer if and only if they are more than it holds |
| `AnnexB.Bitstream.Copy` | spook/rtp-h263.c:294-295 | The unit is copied to the unit buffer, or overruns it if and only if it is longer |
| `AnnexB.LoadStallsIff` | spook/rtp-h263.c:279-295 | A load makes no progress if and only if the first start code lies at least its own length into the buffer |
| `AnnexB.StallExample` | spook/rtp-h263.c:279-295 | Seven bytes on which a load takes nothing |
| `AnnexB.LoadLeavesCode` | spook/rtp-h263.c:639-651 | From a buffer that begins with a start code of any length a load takes at least three bytes and leaves nothing or a buffer that begins with a start code |
| `AnnexB.LoadKeepsNear` | spook/rtp-h263.c:279-295 | When the first start code lies less than its own length into the buffer, a load makes progress and leaves nothing or a buffer of which the same is true |
| `AnnexB.EndsIff` | spook/rtp-h263.c:639-651 | Repeated loads come to an end if and only if the first start code, if any, lies less than its own length into the frame |
| `AnnexB.PartitionConcatenates` | spook/rtp-h263.c:639-657 | The pieces that successive loads take concatenate to the buffer |
| `AnnexB.PartitionUnits` | spook/rtp-h263.c:639-657 | Cut from a buffer that begins with a start code, every piece begins with one and has at least three bytes |
| `AnnexB.FramePartition` | spook/rtp-h263.c:639-657 | A frame of well-formed NAL units behind four-byte start codes is cut into exactly those units, in order |
| `FuA.DepacketizeFragments` | spook/rtp-h263.c:681-713 | A receiver that follows section 5.8 of RFC 6184 rebuilds a NAL unit from its fragments, whatever was received before and comes after |
| `FuA.DepacketizePacketized` | spook/rtp-h263.c:659-713 | Reassembling the payloads for any list of NAL units of types 1 to 23 gives the list back, in order |
| `FuA.LongNalWellFragmented` | spook/rtp-h263.c:693-712 | A NAL unit too long for a packet becomes at least two fragments of at most 1400 payload bytes; S only on the first, E and the RTP marker only on the last, the unit's F, NRI and type on all |
| `FuA.ShortNalMarker` | spook/rtp-h263.c:673-677 | A NAL unit of at most 1401 bytes is one packet, marked if and only if its type is none of SEI, SPS and PPS |
| `FuA.MarkedAtEndIff` | spook/rtp-h263.c:659-713 | The last packet of a frame is marked and no other (section 5.1 of RFC 6184) if and only if the frame is SEI and parameter sets, each in one packet, and then one NAL unit that is not |
| `Wire.ExtentEncoded` | spook/rtsp.c:217-232 | From the first bytes of an encoded message the client tells the length of its head and of its body, whatever bytes follow |
| `Wire.FirstEncoded` | spook/rtsp.c:217-232 | A well-formed message is cut off as what it is from whatever follows it |
| `Wire.FirstUnfinished` | spook/rtsp.c:217-232 | It is not cut off before all of it has arrived |
| `Wire.ReceivedPrefix` | spook/rtsp.c:217-232 | From any part of the bytes of a list of well-formed messages the client has a prefix of the list, and left over a part of the next message |
| `Wire.DeframeEncoded` | spook/rtsp.c:217-232 | Deframing the bytes of any list of well-formed messages, replies with bodies among them, gives the list back |
| `Wire.PrintedFramed` | spook/tcp.c:135-147 | A printed reply with the body it announces, if any, is one message on the connection: no empty line before the last of its head, and a Content-Length that reads back as the length of the body |
| `Wire.InterleavedRecoveredIff` | spook/rtsp.c:219-229 | A lone interleaved frame is read back if and only if its payload has fewer than 65536 bytes |
| `Wire.InterleavedBytes` | spook/rtsp.c:219-227 | A frame is a dollar sign, the channel, two bytes of length with the high byte first, and the payload |
| `Tcp.Conn.constructor` | spook/tcp.c:484-501 | A fresh connection has an empty buffer and nothing to write |
| `Tcp.Conn.Avail` | spook/tcp.c:106-111 | The room in the ring is its size less one less what is queued |
| `Tcp.Conn.PutByte` | spook/tcp.c:117-122 | One byte is appended to what is queued, across the wrap |
| `Tcp.Conn.SendData` | spook/tcp.c:113-127 | Data is queued whole or refused whole, refused if and only if it does not fit; of a negative length nothing is queued; bytes written followed by bytes queued stay all bytes accepted |
| `Tcp.Conn.InterleaveSend` | spook/rtsp.c:217-232 | Refused if and only if the sum of the lengths and a header do not fit; without negative lengths the frame joins the accepted messages whole or leaves no trace; with them, what is queued is the header and each part that still fits |
| `Tcp.QueuedWhole` | spook/rtsp.c:219-229 | When the lengths of the parts are not negative and their sum fits, what is queued is one whole frame of all the parts |
| `Tcp.Conn.SendVector` | spook/rtsp.c:228-229 | The parts are queued one after the other, each if it fits |
| `Tcp.Conn.SendPmsg` | spook/tcp.c:129-152 | A request is refused, a head of 2048 bytes or more overruns the print buffer, and otherwise the head is queued if and only if there is room for it and the body to come |
| `Tcp.Conn.SendReply` | spook/rtsp.c:309-318 | A reply and the body it announces join the accepted messages whole or not at all |
| `Tcp.Conn.Traffic` | spook/tcp.c:76-152 | Over any run of frames that fit their header, replies that print with and without a body, and partial writes: deframing the accepted bytes gives exactly the accepted messages, and what has been written so far gives a prefix of them |
| `Tcp.Conn.ConnWrite` | spook/tcp.c:76-104 | Whatever the write calls take, written bytes only grow, nothing accepted is lost or reordered, and draining leaves everything written |
| `Tcp.Conn.TakeFromRing` | spook/tcp.c:98-100 | A partial write moves just the bytes it took from queued to written |
| `Rtp.HeaderFields` | spook/rtp.c:352-360 | A receiver that reads the fields of section 5.1 of RFC 3550 from the bytes finds version 2 and nothing optional, the marker, the payload type, and sequence number, timestamp and SSRC modulo their size, high byte first, and behind them the payload |
| `Rtp.CarriedAppend` | spook/rtp.c:376-404 | The headers that arrive from two runs of sends are those of the first and then those of the second, counted on from it |
| `Rtp.GapCountsRefusals` | spook/rtp.c:376-404 | Between two packets that arrive one after the other the sequence number jumps by one more than the sends refused in between, modulo 65536 |
| `Rtp.CarriedSource` | spook/rtp.c:352-357 | All of them have version 2, the payload type and the SSRC of the endpoint |
| `Rtp.Endpoint.constructor` | spook/rtp.c:47-72 | A new endpoint starts at its random sequence number with nothing attempted, a report due and the report timer off |
| `Rtp.Endpoint.RtcpSend` | spook/rtp.c:147-209 | A 52-byte report with the counters of the moment is queued on the RTCP channel, or dropped if and only if there is no room for it |
| `Rtp.ReportFields` | spook/rtp.c:174-181 | A receiver of the sender report reads SSRC, time of day, timestamp, packet count and octet count where section 6.4.1 of RFC 3550 has them |
| `Rtp.DescriptionFields` | spook/rtp.c:182-188 | A receiver of the source description reads the SSRC and the name, and a length of 20 bytes |
| `Rtp.ReportCompound` | spook/rtp.c:174-188 | By the check of lengths in appendix A.2 of RFC 3550 the sender report is valid and the two packets together are not: the description is four bytes longer than it says |
| `Rtp.Endpoint.SendRtpPacket` | spook/rtp.c:339-407 | Queued or refused, a send uses one sequence number modulo 65536 and is counted; it is refused if and only if header and parts do not fit; as long as no part had a negative length, the headers that arrive on the channel are those of the sends not refused, with their numbers, their markers, their timestamps and the endpoint's payload type and SSRC |
| `Rtp.RecordedLater` | spook/rtp.c:376-404 | Messages on other channels leave alone what an endpoint knows of its packets |
| `Rtp.StillInStep` | spook/rtp.c:376-404 | A step of one track on a connection keeps every other track on it in step |
| `Rtp.Traffic` | spook/rtp.c:339-407 | Over any run of packets and reports of several tracks on one connection, replies and partial writes, the client gets the accepted messages and on every track exactly the headers of the packets not refused: their numbers, timestamps, markers and source |
| `H264Send.RecoveredIffFourByteCode` | spook/rtp-h263.c:653-657 | What is sent for a loaded unit is its NAL unit if and only if the start code has four bytes |
| `H264Send.SendFragments` | spook/rtp-h263.c:693-712 | The fragment loop sends the fragments of the unit in order, numbered on, and stops at the first refusal |
| `H264Send.SendUnit` | spook/rtp-h263.c:653-713 | A loaded unit of at least five bytes is sent as the packets its length calls for, the header byte rebuilt from its fields; for a shorter one a packet with a part of negative length is sent, and is refused if and only if there are fewer than 12 bytes of room besides the length of the unit |
| `H264Send.UnitFramedIff` | spook/rtp-h263.c:656-679 | An unfragmented packet becomes a whole frame if and only if its unit has at least five bytes, or has four and the room is exactly 16 |
| `H264Send.ShortMisread` | spook/rtp-h263.c:656-679 | Of the packet of a shorter unit the client takes the first bytes for a frame and the rest for the next message |
| `H264Send.EmptyUnit` | spook/rtp-h263.c:639-657 | A frame that is a start code with nothing behind it is cut into that one short unit |
| `H264Send.TrailingCode` | spook/rtp-h263.c:639-657 | A frame that ends in a start code is cut into a unit and a short one |
| `H264Send.FrameReassembled` | spook/rtp-h263.c:620-717 | The messages of a fully successful send of a well-formed frame, deframed, stripped of RTP headers and reassembled, are its NAL units |
| `H264Send.ClientRecovers` | spook/rtp-h263.c:620-717 | The same, read off the bytes the connection accepted during the send; all packets read there have the timestamp of the frame, and the last has the marker and no other if and only if the frame is one picture |
| `H264Send.Sender.Send` | spook/rtp-h263.c:620-717 | For every frame the loop ends: done, refused, or overrunning the unit buffer, the last if and only if it comes to a unit longer than that. Packets go out in order up to the first refusal; if the units tried have at least five bytes, everything queued is well formed; torn says just that a packet with a part of negative length was queued; a send that succeeds has cut up the whole frame, and from the bytes accepted a client recovers exactly the NAL units of any well-formed frame, all packets with its timestamp, the marker on the last and no other if and only if the frame is one picture |
| `H264Send.Sender.SendUnits` | spook/rtp-h263.c:639-714 | A successful run of the loop sent the packets of a complete partition of the frame, or found no start code at all; loads that get stuck end in a refusal; it overruns the unit buffer if and only if a unit it loads is too long |
| `H264Send.Sender.SendNext` | spook/rtp-h263.c:641-713 | One turn loads the next unit and sends its packets behind those already sent, or overruns the unit buffer, or finds no start code and changes nothing; it moves on in the frame or queues something |
| `H264Send.TriedWellFormed` | spook/rtp-h263.c:659-713 | What is queued of the packets of NAL units is frames that fit their headers |
| `H264Send.LoadedFrame` | spook/rtp-h263.c:639-657 | The units loaded from a well-formed frame, all of it or a part, are its first NAL units behind their start codes |
| `H264Send.FrameFits` | spook/rtp-h263.c:294 | For a well-formed frame the unit buffer is overrun if and only if a NAL unit that is loaded leaves no room in it for its start code |
| `H264Send.LongNalOverruns` | spook/rtp-h263.c:151 | A frame of the default size with one NAL unit of more than 300 * 1024 - 4 bytes is well formed, and overruns the unit buffer when it is loaded |
| `H264Stream.CollectNal` | spook/rtp-h263.c:659-713 | Of a NAL unit whose first packets arrive a receiver gets the unit if these are all, and nothing otherwise, whatever it held before |
| `H264Stream.CollectFrame` | spook/rtp-h263.c:639-717 | Of a frame whose first packets arrive a receiver gets exactly the NAL units whose packets are all among them, in order |
| `H264Stream.CollectBursts` | spook/rtp-h263.c:620-717 | From the packets of any run of frames, each up to its first refusal, a receiver gets exactly the NAL units that are complete, in order |
| `H264Stream.SendFrame` | spook/rtp-h263.c:620-717 | h263_send of a well-formed frame that the unit buffer has room for is such a step: its packets up to the first refusal, all well formed, one number used up for each and one for the refusal |
| `H264Stream.Stream` | spook/rtp-h263.c:620-717 | Over any run of frames on one of several tracks, with packets of other tracks, reports, replies, partial writes and refusals: all tracks stay in step, the track's channel has the packets of the frames up to their refusals, and a receiver gets exactly the NAL units whose packets were all queued, whatever it held before |
| `RawAudio.Send` | spook/rtp-rawaudio.c:111-133 | The packets queued carry the block, or what of it precedes the first refused packet, in order; each has at most 12 + 8192 bytes, begins with a whole sample, and has the timestamp of that sample; all of the block is sent if the function reports success |
| `Exchanger.Exchanger.constructor` | spook/frame.c:179-219 | All slots empty, the three cursors together, nothing offered |
| `Exchanger.Exchanger.ExchangeFrame` | spook/frame.c:221-237 | A frame is refused if and only if all slots are occupied |
| `Exchanger.Exchanger.GetNextFrame` | spook/frame.c:239-253 | Between deliveries the slave gets the oldest frame it has not handed back, and none if there is none |
| `Exchanger.Exchanger.Store` | spook/frame.c:259 | The slave's frame is stored in its slot; nothing the master can see changes |
| `Exchanger.Exchanger.ClearPending` | spook/frame.c:260 | The slot is published |
| `Exchanger.Exchanger.Signal` | spook/frame.c:262-266 | A written byte makes the frame delivered; a failed write leaves the slave where it was for good |
| `Exchanger.Exchanger.Advance` | spook/frame.c:268 | The slave's cursor moves on |
| `Exchanger.Exchanger.ReadPipe` | spook/frame.c:164-169 | A byte is there if and only if more frames are delivered than read |
| `Exchanger.Exchanger.TakeFrame` | spook/frame.c:170-175 | The callback gets the oldest delivered frame not yet read, never a null one |
| `Exchanger.Exchanger.FrameWithoutByte` | spook/frame.c:163-175 | After a failed read of the pipe the callback would get the oldest delivered frame if there is one, and otherwise a frame that is still the slave's or none |
| `Exchanger.Exchanger.Interleave` | spook/frame.c:155-271 | Under any schedule of both threads: frames read, delivered and offered are in this order and at most N apart, the pipe holds a byte for each frame delivered and not read, and the callback sees what was offered, each once and in order |
| `Exchanger.Exchanger.Quiescent` | spook/frame.c:155-271 | When nothing is left to do every frame offered has come back |
| `FrameBooks.IssueInv` | spook/frame.c:67-96 | Taking a frame out of the ring keeps counts, handles and clones in agreement |
| `FrameBooks.AttachInv` | spook/frame.c:104-120 | So does making a live frame a clone of another |
| `FrameBooks.AddHandleInv` | spook/frame.c:122-127 | So does one more reference |
| `FrameBooks.UnrefInv` | spook/frame.c:129-153 | So does dropping a reference, through the whole chain of originals it releases |
| `FrameBooks.UnrefHandles` | spook/frame.c:129-153 | unref_frame takes one handle off the frame and leaves all others as they were |
| `FrameBooks.UnrefReleases` | spook/frame.c:129-153 | It puts back exactly the run of originals nobody else holds, originals before clones |
| `FrameBooks.UnrefEffect` | spook/frame.c:129-153 | The whole effect of unref_frame on free frames, live frames and handles |
| `FrameHeap.Heap.constructor` | spook/frame.c:39-60 | All frames are in the ring |
| `FrameHeap.Heap.TakeFromRing` | spook/frame.c:71-94 | The oldest frame leaves the ring, or the ring is empty |
| `FrameHeap.Heap.PutInRing` | spook/frame.c:144-152 | A frame on its way back always finds the slot at frame_heap_put empty: the complaint is unreachable |
| `FrameHeap.Heap.NewFrame` | spook/frame.c:67-96 | The oldest free frame with a count of one and no destructor, or none if and only if none is free |
| `FrameHeap.Heap.RefFrame` | spook/frame.c:122-127 | One more handle and one more on the count |
| `FrameHeap.Heap.CloneFrame` | spook/frame.c:104-120 | A clone holds a reference on its original |
| `FrameHeap.Heap.Decrement` | spook/frame.c:133-136 | The count drops by one and says whether anybody is left |
| `FrameHeap.Heap.UnrefFrame` | spook/frame.c:129-153 | Ends on every chain of clones and does to the heap what the books say |
| `FrameHeap.Heap.DeliverToStream` | spook/stream.c:68-81 | Each waiting destination gets a reference of its own and does any series of steps to the heap; afterwards the caller's reference is dropped |
| `FrameBooks.NeutralDelivery` | spook/stream.c:68-81 | When every consumer, whatever else it does, ends up without the reference it was given and none it did not have, delivery takes exactly the caller's reference |
| `FrameBooks.ScheduleInv` | spook/frame.c:62-153 | Any legal steps of any threads in any order keep counts, handles, clones and free frames in agreement |
| `FrameHeap.Heap.Schedule` | spook/frame.c:62-153 | Any run of atomic steps on the heap keeps ring, counts and destructors what the books say, so that a frame that comes back always finds its slot empty |
| `SoftQueue.RemoveFromList` | spook/event.c:69-77 | The head leaves a circular list, which stays well formed |
| `SoftQueue.AddToList` | spook/event.c:79-93 | A node joins a circular list at its tail |
| `SoftQueue.SoftQueue.constructor` | spook/event.c:95-114 | A new queue has all its nodes in the free list |
| `SoftQueue.SoftQueue.Add` | spook/event.c:243-265 | Fails if and only if as many events are outstanding as there are nodes; otherwise appends, and signals if somebody listens |
| `SoftQueue.SoftQueue.LockedGetNextEvent` | spook/event.c:217-230 | The oldest event, first in first out, or none if the queue is empty |
| `SoftQueue.SoftQueue.GetNextEvent` | spook/event.c:232-241 | A direct consumer takes an event and leaves its byte in the pipe |
| `SoftQueue.SoftQueue.Listen` | spook/event.c:306-324 | The first listener opens the pipe, or is not added when there is none; events queued before are not signalled |
| `SoftQueue.SoftQueue.Run` | spook/event.c:269-286 | One byte, one event; a queue whose bytes never outnumber its events never runs on nothing; without a byte to read the queue stops listening |
| `SoftQueue.SoftQueue.Schedule` | spook/event.c:217-303 | Under any schedule on a queue listened to from the start and drained by sq_run only, pipe bytes equal queued events and what comes out is what went in, in order |
| `EventList.EventList.Prepend` | spook/event.c:154-156 | A new event heads its list |
| `EventList.EventList.Unlink` | spook/event.c:137-142 | One event leaves a doubly linked list; the others stay in order |
| `EventList.EventList.Strip` | spook/event.c:130-144 | strip_events leaves a well-formed list of exactly the unflagged events, in order |
| `EventTrace.SafeMeans` | spook/event.c:334-350 | In a safe run, between the removal of an event and a later call of its callback lies an enabling or a rescheduling |
| `EventTrace.StaysQuiet` | spook/event.c:334-350 | A removed event stays quiet until it is enabled or rescheduled |
| `EventLoop.EventLoop.RemoveEvent` | spook/event.c:334-338 | The event is flagged, neither enabled nor due to run, and the run records it |
| `EventLoop.EventLoop.SetEventEnabled` | spook/event.c:346-350 | The event is enabled or not, and the run records it |
| `EventLoop.EventLoop.ReschedEvent` | spook/event.c:176-187 | The event is enabled and a pending removal taken back |
| `EventLoop.EventLoop.AddEvent` | spook/event.c:146-215 | A new event is enabled, not due to run, and heads the list of its kind; a new listener likewise |
| `EventLoop.EventLoop.ExitEventLoop` | spook/event.c:357-360 | The loop is ended, and the run records it |
| `EventLoop.EventLoop.Callback` | spook/event.c:402-458 | Whatever a callback does to whatever events, the lists stay well formed, only grow at the front, the run stays safe, and no listener flagged for removal is unflagged |
| `EventLoop.EventLoop.MarkRunning` | spook/event.c:375-410 | The events of a list that are due to run are exactly the enabled ones |
| `EventLoop.EventLoop.BeginPass` | spook/event.c:375-410 | What is to run is exactly what is on a list and enabled |
| `EventLoop.EventLoop.Dispatch` | spook/event.c:412-453 | Unless the loop is ended, every event of the list that was due to run and whose time came has been called, or removed first; no other event is called, and each at most once |
| `EventLoop.EventLoop.Fire` | spook/event.c:417-425 | The event is called first of all and no other event after it, sq_run as its callback included; before the call one-shot events are flagged and other timers rescheduled |
| `EventLoop.EventLoop.Pass` | spook/event.c:372-456 | In one pass every enabled event that is due is called unless it is removed first or the loop is ended; whatever is called was enabled when the pass began and is due, is called once, timers before events that are always due before descriptors, and not after the loop was ended. Afterwards the lists have the unflagged events in order: a one-shot event that was called is gone unless it was rescheduled since, any other timer that was called is there and enabled unless it was removed or disabled since |
| `EventLoop.EventLoop.StripAll` | spook/event.c:454-456 | All three lists are left with their unflagged events, in order |
| `EventLoop.EventLoop.Run` | spook/event.c:362-458 | Makes one pass or goes on until the loop is ended; over any number of passes with any callbacks the run of the loop's own calls is safe; the listeners that sq_run calls are not in this run (see SqRun) |
| `EventLoop.EventLoop.SqRun` | spook/event.c:287-300 | With callbacks that do anything to events, the listeners are called from the front, flagged or not, all of them or up to the one that ends the loop, one-shot ones once; then the unflagged are left; the dispatch is safe if and only if none that is reached is wronged |
| `EventLoop.EventLoop.SqTurn` | spook/event.c:290-299 | One listener is called, flagged before if it is one-shot |
| `EventTrace.SoftDispatchSafeIff` | spook/event.c:287-300 | A dispatch keeps a run safe if and only if no listener that is reached is new, removed by an earlier callback of the dispatch, or removed before and not revived |
| `EventTrace.HandsOffSafeIff` | spook/event.c:287-300 | When callbacks neither remove nor enable listeners behind them, it is safe if and only if no listener that is reached is removed or new at its beginning |
| `EventTrace.ListenersWronged` | spook/event.c:287-300 | A listener removed between two runs of the queue is called once more, one removed by the callback in front of it is still called, and one is called in the pass that adds it |
| `RtspWorld.ChannelsExclusive` | spook/rtsp.c:354-420 | No two live endpoints share a channel of a connection |
| `RtspWorld.ChannelsAreExact` | spook/rtsp.c:354-420 | A channel names an endpoint if and only if it is live, interleaved on that connection and owns the channel as its RTP or RTCP half |
| `RtspWorld.FreeChannels` | spook/rtp.c:86-91 | Giving back an endpoint's channels keeps channels and endpoints in agreement |
| `RtspWorld.DisconnectFrees` | spook/rtp.c:86-91 | The two channels an interleaved endpoint gives back are all that name it |
| `RtspWorld.Interleave` | spook/rtsp.c:408-414 | Connecting an endpoint to two free channels keeps channels and endpoints in agreement |
| `RtspWorld.FreeTrack` | spook/live.c:150-154 | Deleting a track's endpoint keeps sessions and endpoints in agreement |
| `RtspWorld.DropControlled` | spook/rtsp.c:150-159 | Unlinking a session's control block leaves a list of live sessions only, each once |
| `RtspWorld.DropListed` | spook/live.c:158-164 | Unlinking a session leaves the live source's list of the others, each once |
| `RtspWorld.LookupLive` | spook/rtsp.c:177-185 | get_session never returns a deleted session, nor one without endpoints |
| `RtspWorld.AllOfThem` | spook/live.c:147-156 | A teardown without an endpoint takes every endpoint of the session and no other |
| `RtspServer.Server.constructor` | spook/live.c:220-237 | A server without connections, sessions and endpoints is in order |
| `RtspServer.Server.InterleaveDisconnect` | spook/rtsp.c:200-205 | One channel names nobody any more |
| `RtspServer.Server.DelRtpEndpoint` | spook/rtp.c:74-95 | The endpoint is gone and with it every channel that named it; nothing else changed |
| `RtspServer.Server.DelSession` | spook/session.c:58-65 | The session leaves the registry and both lists |
| `RtspServer.Server.Teardown` | spook/live.c:142-166 | The endpoint named, or all of them, goes with its channels; the session goes if and only if no endpoint is left; everything else stays |
| `RtspServer.Server.GetSession` | spook/rtsp.c:177-185 | The first session with the client's identifier, or none |
| `RtspServer.Server.Open` | spook/live.c:168-188 | A new session without endpoints heads the source's list |
| `RtspServer.Server.LiveSetup` | spook/live.c:104-118 | A track that has media gets an endpoint; any other is refused without a trace |
| `RtspServer.Server.PickChannels` | spook/rtsp.c:361-392 | The channels asked for if they are free, or the lowest free even pair; failure if and only if there are none to give |
| `RtspServer.Server.InterleaveSetup` | spook/rtsp.c:354-420 | The endpoint gets two free channels of the connection, or nothing changes |
| `RtspServer.Server.NewRtspSession` | spook/rtsp.c:161-175 | The session gets a control block that heads the list |
| `RtspServer.Server.HandleSetup` | spook/rtsp.c:422-503 | The code of every case, in the order of the checks: 404 without location or track, 401 without credentials, 461 without Transport, 454 for an unknown session, 461 for a track that is taken, 404 for one without media, 461 for a transport that cannot be had, else 200. A granted request adds one endpoint, in the session that the reply names, with the transport asked for; a refused one leaves nothing behind |
| `RtspServer.Server.HandleDescribe` | spook/rtsp.c:287-327 | The session opened for the answer is gone afterwards, except after a 401, which leaves it behind |
| `RtspServer.Server.HandlePlay` | spook/rtsp.c:505-562 | The session named starts playing; without one nothing changes |
| `RtspServer.Server.HandleTeardown` | spook/rtsp.c:591-622 | 404 without location or track, else 454 for an unknown session, else 200; takes the endpoint of the track named, or, when the URL names none or one without an endpoint, the whole session |
| `RtspServer.Server.LoseEndpoint` | spook/rtp.c:103-120 | An endpoint in trouble goes and takes its channels with it |
| `RtspServer.Server.ConnDisconnect` | spook/rtsp.c:187-198 | Afterwards no live endpoint refers to the connection; the endpoints that did not, and the sessions that had none on it, are untouched |
| `RtspServer.Server.DropConn` | spook/tcp.c:51-74 | The connection is gone and no endpoint refers to it |
| `RtspServer.Server.Accept` | spook/tcp.c:484-503 | A new connection has no channels |
| `RtspServer.Server.Serve` | spook/rtsp.c:150-622 | After any requests, lost endpoints and dropped connections in any order, channels and endpoints own each other exactly |
| `Base64.WholeResumes` | spook/tcp.c:358-368 | Decoding may stop anywhere and carry on with the characters left over |
| `Base64.Alphabet` | spook/rtp-h263.c:150 | The characters are those of Table 1 of RFC 4648 |
| `Base64.CharValue` | spook/base64_table.h:1-18 | The decoding table has a value for these and the padding only, and it is their place in the encoding table |
| `Base64.TestVectors` | spook/rtp-h263.c:442-477 | Three test vectors of section 10 of RFC 4648 |
| `Base64.WholeEncoded` | spook/rtp-h263.c:442-477 | Decoding undoes encoding, with any padding |
| `Base64.WholeEncodedEach` | spook/rtp-h263.c:442-477 | Decoding several encoded strings one after another gives them concatenated |
| `Base64.Base64Encode` | spook/rtp-h263.c:442-477 | The loop and its padding produce the encoding |
| `Base64.Unbase64` | spook/tcp.c:351-381 | In place, the buffer gets the bytes of all complete groups and behind them the characters left over, other characters skipped; nothing outside is touched |
| `Base64.Round` | spook/tcp.c:358-379 | One round decodes the next four characters into bytes already read, never overtaking the read position |
| `Base64.Tunnel.Receive` | spook/tcp.c:391-424 | However the stream is cut up by reads, what is in the buffer is what all of it decodes to; a full buffer ends the connection |
| `Base64.Tunnel.Handle` | spook/tcp.c:433-436 | Requests are looked at when nothing is left over, and then the buffer is emptied |
| `Base64.Tunnel.Arrived` | spook/tcp.c:417-424 | A client that sends encoded strings with other characters in between gets all their bytes through |
| `Md5Transform.MacroIs` | spook/md5.c:164-170 | The optimised macros are the auxiliary functions F, G, H and I of RFC 1321 |
| `Md5Transform.FourOps` | spook/md5.c:173-174 | Four steps under changing names are four operations of the reference with registers changing places |
| `Md5Transform.Round1` | spook/md5.c:190-205 | The sixteen steps are operations 0 to 15 of the reference, by its formulas for index and rotation and its table of constants |
| `Md5Transform.Round2` | spook/md5.c:207-222 | The sixteen steps are operations 16 to 31 |
| `Md5Transform.Round3` | spook/md5.c:224-239 | The sixteen steps are operations 32 to 47 |
| `Md5Transform.Round4` | spook/md5.c:241-256 | The sixteen steps are operations 48 to 63 |
| `Md5Transform.MD5Transform` | spook/md5.c:181-262 | The registers become what the 64 operations of RFC 1321 make of them and the block |
| `Md5.FoldThen` | spook/md5.c:102-110 | Blocks may be folded in two parts |
| `Md5.CountMore` | spook/md5.c:77-82 | The two words and their carry count 8 times the length modulo 2^64 |
| `Md5.FinalOne` | spook/md5.c:137-156 | If the padding fits the last block, one more transform gives the digest |
| `Md5.FinalTwo` | spook/md5.c:137-156 | If it does not, two give it |
| `Md5.Context.constructor` | spook/md5.c:58-67 | A context for the empty message |
| `Md5.Context.MD5Update` | spook/md5.c:73-115 | The context holds the fold of the transform over all complete blocks so far, the bytes left, and 8 times the length modulo 2^64 |
| `Md5.Context.MD5Final` | spook/md5.c:121-160 | The digest of all that was fed in, padded as RFC 1321 says |
| `Md5.DigestPieces` | spook/md5.c:58-160 | For every way of cutting up a message the digest is that of the whole |
| `Md5Value.DigestOfAbc` | spook/md5.c:58-262 | The digest of "abc" by this reference is the test value of appendix A.5 of RFC 1321 |
| `Crc.TableEntry` | Mp4v2/mp4v2-2.0.0/libutil/crc.cpp:39-92 | Each of the 256 table entries is eight shifts of its index at the top of the register |
| `Crc.StepLinear` | Mp4v2/mp4v2-2.0.0/libutil/crc.cpp:94 | A shift is linear over addition modulo 2 |
| `Crc.ComputeIs` | Mp4v2/mp4v2-2.0.0/libutil/crc.cpp:94 | One table step is eight shifts of the register with the byte added at the top |
| `Crc.RemainderByte` | Mp4v2/mp4v2-2.0.0/libutil/crc.cpp:94 | One table step is eight steps of the bit-at-a-time division |
| `Crc.Crc32` | Mp4v2/mp4v2-2.0.0/libutil/crc.cpp:36-106 | For every byte string the result is the complement of the bit-at-a-time remainder over the data and its length in as few bytes as it takes, low byte first |
| `Crc.TestValue` | Mp4v2/mp4v2-2.0.0/libutil/crc.cpp:36-106 | The result for "123456789" is 930766865 |
| `Crc.BurstDetected` | Mp4v2/mp4v2-2.0.0/libutil/crc.cpp:36-106 | Two strings of one length that differ only within 32 consecutive bits have different checksums |
| `Pmsg.PrintPmsg` | spook/tcp.c:129-148 | A request is refused; the head is printed, with Content-Length for a body, if and only if it leaves a byte of the 2048 for its NUL, and the room that head and body need is its length and the body's |
| `Pmsg.HeadersPrinted` | spook/pmsg.c:126-160 | Printed headers are parsed back as the same list, up to the empty line |
| `Pmsg.ResponsePrinted` | spook/pmsg.c:68-124 | A printed status line is parsed back as the same protocol, code and reason |
| `Pmsg.ParsePrinted` | spook/pmsg.c:60-161 | Parsing a printed reply gives the same status line and header list, and the exact length of the head whatever follows |
| `Pmsg.PrintedExample` | spook/tcp.c:135-147 | The bytes of one printed reply with a header and an announced body |
| `Pmsg.AnnouncedLength` | spook/tcp.c:140-144 | A reader of the headers finds the announced length, and none when no body was announced |
| `Pmsg.BegunAll` | spook/pmsg.c:127-160 | Of a message that is well formed every header line is stored |
| `PmsgReply.Reply.constructor` | spook/pmsg.c:282-299 | An empty message with room for so many bytes of strings |
| `PmsgReply.Reply.AddString` | spook/pmsg.c:37-47 | The string is stored behind the others, or refused if and only if it and its NUL do not fit; strings stored before stay where they are |
| `PmsgReply.Reply.AddHeader` | spook/pmsg.c:173-183 | Added if and only if there are fewer than 32 headers and room for name and value; without room for the value the name stays behind unused |
| `PmsgReply.Reply.AddHeaderPrintf` | spook/pmsg.c:185-208 | Added under the same condition; the text is cut short in the free part of the buffer only, and no string stored before changes |
| `PmsgReply.Reply.CopyHeaders` | spook/pmsg.c:232-244 | The headers of that name are added one after the other, each as far as there is room |
| `PmsgReply.CopiedOnly` | spook/pmsg.c:232-244 | Only headers of that name come in, and what was there stays |
| `PmsgReply.CopiedIff` | spook/pmsg.c:232-244 | All headers of that name come in, in order and behind what was there, if and only if with them there are at most 32 and their strings fit |
| `PmsgReply.SameNameMeans` | spook/pmsg.c:237 | Names are the same if they have the same letters in the same places, large or small |
| `PmsgReply.NamedMeans` | spook/pmsg.c:236-242 | The headers of a name are just those of the list that have it, in order |
| `PmsgReply.PrintedLength` | spook/tcp.c:135-147 | A printed reply is at most 56 bytes, and two for each header, longer than its strings are in the message |
| `PmsgReply.Reply.Send` | spook/tcp.c:129-152 | No reply of at most 512 bytes of strings overruns the print buffer: it is queued or refused |
| `PmsgReply.ParsedPrintable` | spook/pmsg.c:137-159 | A header that the parser has found can be printed and found again |
| `PmsgReply.RtspCreateReply` | spook/rtsp.c:245-254 | The reply to a request that was parsed says RTSP/1.0, the code and the reason, and is one that a client can cut from the stream; its headers are exactly the CSeq headers of the request if and only if there is room for them |
| `PmsgReply.EchoParsed` | spook/rtsp.c:245-254 | A client that parses the printed reply, with other headers and a body added, reads the status line and exactly the CSeq headers of its request |
| `PmsgReply.AddableReplies` | spook/rtsp.c:245-254 | It stays one when printable headers other than Content-Length are added |
| `PmsgParser.DelimAt` | spook/pmsg.c:49-58 | The first byte that ends a word |
| `PmsgParser.ParseResponseAt` | spook/pmsg.c:76-124 | The response line is parsed as specified, its words left in place as C strings |
| `PmsgParser.ParseRequestAt` | spook/pmsg.c:97-124 | The request line is parsed as specified, its words left in place as C strings |
| `PmsgParser.ParseHeaderAt` | spook/pmsg.c:137-159 | One header line is parsed as specified, name and value left in place |
| `PmsgParser.Message.ParseFields` | spook/pmsg.c:127-160 | The header loop stores the headers of the specification, and overruns the array of 32 if and only if it begins a 33rd line; earlier fields survive the cutting up of later ones |
| `PmsgParser.Message.ParsePmsg` | spook/pmsg.c:60-161 | On a buffer with an empty line the in-place parser overruns fields[] if and only if the message has a start line and the header loop begins a 33rd line; otherwise it returns what the specification says and its pointers read as the specified strings |
| `PmsgParser.PrintedParses` | spook/pmsg.c:60-161 | Every printed reply is read back, and has room in fields[] if and only if it has at most 32 header lines, Content-Length included |
| `PmsgParser.RequestParsed` | spook/pmsg.c:97-124 | Of any request line the method, the URI and the protocol are read as they stand |
| `PmsgParser.RequestOverruns` | spook/pmsg.c:138-154 | A request line and n header lines overrun fields[] if and only if n exceeds 32; with 33 they are 214 bytes |
| `Streams.DemandUp` | spook/stream.c:63-66 | A waiting destination anywhere keeps the source of its chain running |
| `Streams.DemandDown` | spook/stream.c:63-66 | A running source has somebody waiting at the end of a chain from it |
| `Streams.SourceRunsIff` | spook/stream.c:194-218 | A source was last told to run if and only if a destination at the end of a chain from it waits |
| `Streams.Registry.SetWaiting` | spook/stream.c:194-218 | The upward calls end, set the destination, make everything on the way agree, and change no listener elsewhere |
| `Streams.Registry.Listen` | spook/stream.c:194-218 | A listener starts or stops waiting and all streams agree with who waits |
| `Streams.Registry.NewDest` | spook/stream.c:94-111 | A new destination does not wait and heads its stream's list |
| `Streams.Registry.NewConvertStream` | spook/stream.c:113-130 | A converter is a stream fed by a new destination of its base, right behind it in the list |
| `Streams.Registry.FormatMatch` | spook/stream.c:83-92 | True if and only if the format is listed or nothing is |
| `Streams.Registry.ConnectToStream` | spook/stream.c:132-166 | Connects to the first stream of the name whose format will do, else to a converter behind the first that can be converted, else not at all; connects if and only if some stream of the name will do as it is or converted |
| `Streams.Registry.Run` | spook/stream.c:63-218 | After any connects and any changes of who waits, every source runs if and only if it is wanted |
| `AudioRing.FatesAre` | spook/audio.c:89-103 | One in every rate samples is dropped or doubled, counted from the first |
| `AudioRing.FatesThen` | spook/audio.c:89-103 | The count carries on from one call to the next |
| `AudioRing.CorrectedSplit` | spook/audio.c:87-107 | What is stored of two runs of samples is stored of one after the other |
| `AudioRing.CorrectedOne` | spook/audio.c:87-107 | Of one sample nothing is stored, or it is, once or twice |
| `AudioRing.Uncorrected` | spook/audio.c:87-107 | At rate 0 the samples are stored as they are |
| `AudioRing.CorrectedLength` | spook/audio.c:87-107 | Samples stored are samples in plus the correction |
| `AudioRing.Ring.constructor` | spook/audio.c:47-70 | An empty ring of a whole number of frames |
| `AudioRing.Ring.Store` | spook/audio.c:104-107 | A sample is stored behind what is pending, nothing pending is overwritten |
| `AudioRing.Ring.CutFrame` | spook/audio.c:108-130 | A full frame is cut off at the read index, which stays at a frame; less than a frame remains |
| `AudioRing.Ring.BlockLasts` | spook/audio.c:108-130 | A block can be read at the address its frame has as long as no more bytes were stored since it began than the ring holds; behind that its first byte is that of a later sample |
| `AudioRing.Ring.Input` | spook/audio.c:72-133 | Frames cut so far followed by what is pending are the stream before and the new samples with exactly the flagged ones dropped or doubled; the correction reported is that of these samples |
| `UdpPorts.Normalised` | spook/rtp.c:411-434 | The range is narrowed to an even start and an odd end without losing a pair |
| `UdpPorts.NthOnce` | spook/rtp.c:222-226 | From any pair on, going round the range tries each pair exactly once |
| `UdpPorts.Search` | spook/rtp.c:220-281 | Returns a free pair of the range if and only if there is one, trying pairs in turn from the random one; on failure the sockets stay open |
| `Timecode.RecomputedTicks` | Mp4v2/mp4v2-2.0.0/libutil/Timecode.cpp:442-467 | Carrying preserves the ticks modulo 2^64 for all parts, also where a part wraps, and reaches normal form |
| `Timecode.SplitTicks` | Mp4v2/mp4v2-2.0.0/libutil/Timecode.cpp:513-525 | A duration is split into parts in normal form that stand for it |
| `Timecode.TextParsed` | Mp4v2/mp4v2-2.0.0/libutil/Timecode.cpp:243-438 | The text of any parts of at most sixteen digits is parsed back as the same parts |
| `Timecode.TextRoundTrip` | Mp4v2/mp4v2-2.0.0/libutil/Timecode.cpp:224-528 | For every 64-bit duration the text written is parsed back as the same duration |
| `Timecode.TextExample` | Mp4v2/mp4v2-2.0.0/libutil/Timecode.cpp:469-488 | The text of 1, 23, 4 and 56 is 01:23:04:56 |
| `Timecode.SectionsParsed` | Mp4v2/mp4v2-2.0.0/libutil/Timecode.cpp:243-420 | In a text of up to four sections with colons the last counts subseconds, the one before it seconds, and so on; a missing or empty one counts 0, and more than four sections are refused |
| `Timecode.DecimalsParsed` | Mp4v2/mp4v2-2.0.0/libutil/Timecode.cpp:243-420 | With a period in front of the last section the one before it counts seconds, and so on |
| `Timecode.AcceptedIff` | Mp4v2/mp4v2-2.0.0/libutil/Timecode.cpp:224-438 | Accepted are just the texts of at most four sections of at most sixteen digits with colons in between, of which a period may stand before the last |
| `Timecode.SemicolonRefused` | Mp4v2/mp4v2-2.0.0/libutil/Timecode.cpp:255-261 | No text with a semicolon is accepted |
| `Timecode.CountSections` | Mp4v2/mp4v2-2.0.0/libutil/Timecode.cpp:243-274 | Counts the sections, or finds more than one semicolon or period |
| `Timecode.Timecode.Recompute` | Mp4v2/mp4v2-2.0.0/libutil/Timecode.cpp:442-490 | Parts in normal form, the duration they stood for modulo 2^64, and the text of the parts |
| `Timecode.Timecode.SetDuration` | Mp4v2/mp4v2-2.0.0/libutil/Timecode.cpp:502-528 | The duration is as given and the parts and the text stand for it |
| `Timecode.Timecode.SetPart` | Mp4v2/mp4v2-2.0.0/libutil/Timecode.cpp:541-588 | Setting one part leaves all parts in normal form and the duration that of the parts as set, modulo 2^64 |
| `Timecode.Timecode.ParseText` | Mp4v2/mp4v2-2.0.0/libutil/Timecode.cpp:224-438 | Fails if and only if the text is malformed; otherwise the duration is that of the parts read |
| `Timecode.Timecode.Add` | Mp4v2/mp4v2-2.0.0/libutil/Timecode.cpp:128-138 | The sum, or 2^63 - 1 when it does not fit |
| `Timecode.Timecode.Subtract` | Mp4v2/mp4v2-2.0.0/libutil/Timecode.cpp:142-152 | The difference, not below 0 |

## Left out

- H264Send.Sender.Send: for a frame without any start code the loop prints a message and reports success; the contract says that nothing is sent. The model stops where the program would write behind the unit buffer, which is taken to have at least five bytes.
- H264Stream.Stream: frames that are not well formed or do not fit the unit buffer; `Send` says what becomes of these.
- H264Stream.SendFrame: the same frames.
- Rtp.Endpoint.SendRtpPacket: the branch for UDP, which sends on a socket.
- Rtp.Endpoint.RtcpSend: the branch for UDP, and what becomes of an endpoint in trouble, which is `LoseEndpoint`.
- `udp_rtp_read` and `udp_rtcp_read`: they read sockets; their failures are `LoseEndpoint`.
- Tcp.Conn.ConnWrite: stops after a given number of write calls, because a socket that always answers EAGAIN keeps the handler busy for ever.
- Tcp.Conn.Traffic: outside of it are frames that do not fit their header, and replies whose strings hold line ends, whose protocol begins with a dollar sign, or whose headers name a Content-Length besides the printed one.
- FrameHeap.Heap.constructor: the ring of slots is an array with two indices instead of nodes linked by `next` and `prev`; the slot links never change after construction. The same goes for the exchanger.
- FrameHeap.Heap.NewFrame: format, size and data fields of a frame are not modelled.
- FrameHeap.Heap.CloneFrame: the fields it copies and the data that a clone shares.
- SoftQueue.SoftQueue.GetNextEvent: the wait for an event.
- Exchanger.Exchanger.GetNextFrame: the blocking wait, and frames that are null, which would stall the slave.
- EventLoop.EventLoop.SqRun: one soft queue; the lists of others are alike and apart from it.
- FrameHeap.Heap.Schedule: clone_frame is one step, because nobody else knows a clone before it returns.
- Exchanger.Exchanger.FrameWithoutByte: what becomes of the exchanger after its pipe has failed.
- EventLoop.EventLoop.Pass: times and descriptors; which timers are found expired when their turn comes and which descriptors are ready is arbitrary, and so a callback that changes the time of a timer behind it is one of these choices. `set_event_interval` is left out.
- RtspServer.Server.HandleSetup: parsing of URLs and Transport headers, digest authentication (its outcome is a parameter) and the texts of the replies; one live source; memory never runs out.
- RtspServer.Server.HandleDescribe: the reply and its body.
- RtspServer.Server.HandlePlay: seeking, RTP-Info and the demand that PLAY makes on the streams.
- `handle_PAUSE` and `handle_OPTIONS`, HTTP, and the set-up of the QuickTime tunnel: they do not change who owns what.
- `parse_client_data`: it throws away what follows a request in the buffer.
- PmsgParser.Message.ParsePmsg: the model stops where the program would store behind the end of the array.
- PmsgReply.Reply.Send: which headers each handler adds, besides the CSeq of every reply; a null string is printed as `(null)`, as sprintf of the GNU C library does.
- `get_header`, `replace_header` (which no reply uses) and `get_param`: they would add easy members only.
- RawAudio.Send: the blocks come from `AudioRing` through a queue; how long they last there is `BlockLasts`.
- Md5Transform.MD5Transform: on a big-endian host words are reversed first; the model reads bytes low byte first on every host.
- AudioRing.Ring.Input: the meter, whose decision is a parameter, and what becomes of a frame when there is no free one or the queue is full.
- UdpPorts.Search: socket errors other than a port in use, and the `connect` calls behind the search.
- Timecode.Timecode.ParseText: floating point, that is `setScale`, scales that are not whole numbers and the decimals format, whose results are parameters; scales whose hour does not fit 64 bits.
- `del_stream`, device capture, configuration files, logging, and all of mp4v2 outside libutil.
