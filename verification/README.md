# The Bluetooth mux of panctl, in Dafny

`panctl` carries all outbound TCP and UDP of a small OpenBSD machine over one RFCOMM byte stream to a
Kotlin server on Android. This project models the parts where that can go subtly wrong and proves what
they keep on every run:

- the mux session (`panctl/mux.c`, `panctl/frame.c`): reassembly across calls, dispatch, the senders;
- the RFCOMM send queue (`panctl/main.c`) and, composed with the session, delivery end to end;
- the userland TCP shim (`panctl/tun_tcp.c`): slot table, sequence numbers, close states, recycling;
- checksums and packet building (`panctl/ipv4.c`, shared by the shim);
- the stream tables of `panctl/divert.c`;
- credit-based flow control in `TcpStream.kt`, as interleaved steps, and the Kotlin codec `Frame.kt`.

`dafny verify dfyconfig.toml` checks everything.

## Layout

Each stateful C or Kotlin object is a class whose methods work in place. Beside it stands a module of
values, with one step function per operation; every method's contract equates the new state and its
output with that step of the old state, and the theorems are about runs of the steps.

| class | step functions and theorems | meaning |
|---|---|---|
| `MuxSession.dfy` | `MuxFeed.dfy` | `MuxSpec.dfy`: messages, frames, one-shot parse; `Frame.dfy`, `WireNumbers.dfy`: layout |
| `SendQueue.dfy` | `SendQueueSpec.dfy` | `EndToEnd.dfy`: senders, queue, channel and far end together; `LongFrames.dfy`, `ByChance.dfy`: frames too long for `rfcomm_send`; `LinkStream.dfy`: one stream on the link |
| `TunTcp.dfy` | `TunTable.dfy`, `TunHistory.dfy`, `TunEvents.dfy`, `TunReuse.dfy` | `TunSegment.dfy`, `PacketLayout.dfy`: packets as bytes; `TunFarEnd.dfy`, `TunStray.dfy`, `TunStrayRuns.dfy`: shim, queue and far end together; `PeerToTun.dfy`: from the Kotlin writer to the segments |
| `Divert.dfy` | `DivertTable.dfy`, `DivertHistory.dfy`, `DivertUdp.dfy`, `DivertExhausted.dfy` | `Ipv4.dfy`, `InternetChecksum.dfy`; `DivertFarEnd.dfy`: read loop and link together |
| `TcpStream.dfy` | `CreditSpec.dfy` | `KotlinFrame.dfy`, `KotlinWriter.dfy`: the peer's codec and its writer |

`TunHistory.dfy` writes down each tenancy of a slot from the events alone (what the mux and the local
end did) and relates the slot's fields and everything written to that history; `DivertHistory.dfy` does the
same for the TCP streams of `divert.c`.

The environment is explicit. What `rfcomm_send`, `read`, `write`, `getsockname` and a refused mux send
answer is a parameter of the step, so every theorem holds for all answers; a list of answers that runs
out stands for back-pressure, would-block or full acceptance as its function says. Input buffers are
sequences of bytes, output buffers are arrays. 16- and 32-bit wrap-around is written out.

## Where the code and its comments differ

The model follows the code.

- `panctl/ipv4.c:129` calls the 0xFFE0 test unreachable; it refuses datagrams of 65497 to 65507 bytes,
  which pass the earlier test (`Ipv4.BuildUdp`).
- `rfcomm_send` takes a 16-bit length (`panctl/main.c:205`, `panctl/main.c:229`) while a frame may have
  65541 bytes. A frame with more than 65529 payload bytes is reported as written exactly if the channel is
  open, nothing is queued and RFCOMM accepts the call, and then at most five of its bytes are handed over
  (`LongFrames.LongFrameReported`). The receiver is out of step from there on: everything it is to report
  arrives, in step, exactly if all of that went out whole (`EndToEnd.EndToEnd`). Being in step has to be
  said only when something was sent after a message the receiver refuses: the bytes that follow a cut
  frame may then spell it out again (`ByChance.ArrivesByChance`).
- `panctl/tun_tcp.c:17-20` says that a reused slot cannot inherit live sequence numbers; the ISN depends
  on the slot alone. Two tenancies of a slot in a row share exactly the numbers of the shorter one, so they
  share some exactly if both have used any (`TunReuse.ReuseOverlaps`; `TunReuse.ReuseRun` is a run where
  both SYN-ACKs carry the same number).
- `panctl/tun_tcp.c:10-12` relies on the local kernel to retransmit what is unacked, but the shim ignores the
  result of its mux sends and acknowledges a packet's payload even if its frame was refused
  (`TunStray.AckedAnyway`); such bytes are lost for good. A frame is refused exactly if the channel is
  closed, RFCOMM fails with nothing queued, or it has to be queued and the ring is full or the frame is longer
  than 1100 bytes (`LinkStream.RefusedExactly`). `TunStrayRuns.AckedUnsent` is a run: with no channel open, a
  connection is established and its payload acknowledged, and none of it is accepted. The read loop of
  `divert.c` is not like that: it ends the stream (`DivertFarEnd.NothingLostSilently`).
- The shim also ignores that its OPEN is refused (`panctl/tun_tcp.c:306`), and a slot's stream id never changes.
  The stream then holds the new connection's bytes behind the last one's, unless it held none
  (`TunStray.StreamIsOwn`); `TunStrayRuns.TenanciesMerge` is a run where all of the second connection's bytes
  are accepted and acknowledged, and go there.
- `alloc_stream_id` may report exhaustion with one id still free, the one before `next_stream_id`
  (`DivertTable.AllocExactly`). It does so after any 65535 streams were opened and the last one ended
  (`DivertExhausted.ExhaustedWithOneFree`), for instance by one UDP packet from each of 65535 ports
  (`DivertExhausted.ExhaustedByQueries`).
- `Endpoint.decode` declares IOException, but raises it exactly for payloads that are too short; a zero port or
  a type that does not go with the length raises an unchecked exception (`KotlinFrame.DecodeEndsAs`,
  `KotlinFrame.UndeclaredInputs`).
- `conn_reset` keeps `syn_age`, so a new tenancy inherits its slot's age; a waiting tenancy lasts exactly
  30 minus that age sweeps and is recycled by the next (`TunReuse.WaitsExactly`; in `TunReuse.ReuseRun` the
  inherited age is 1).

## Model

| member | source | states |
|---|---|---|
| Frame.HeaderRoundTrip | panctl/frame.c:41-58 | Decoding a header undoes encoding it, and a six-byte string is an encoded header exactly if its version is current. |
| Frame.HelloRoundTrip | panctl/frame.c:60-79 | HELLO decodes to what was encoded; the decoder accepts exactly the six-byte payloads, each the image of its result. |
| Frame.EncodeEndpoint | panctl/frame.c:81-101 | Succeeds exactly if the address has at most 16 bytes and the buffer has room; then the endpoint's image is at the front and nothing else changed; otherwise nothing changed. |
| Frame.EndpointRoundTrip | panctl/frame.c:81-124 | An encoded endpoint followed by anything decodes to itself and consumes exactly its encoding. |
| Frame.EndpointDecodeIsEncoding | panctl/frame.c:103-124 | Whatever the decoder accepts is the encoding of its result. |
| MuxSpec.DispatchExactly | panctl/mux.c:95-214 | A frame is delivered as message m exactly if its version is current, it carries m in the declarative sense of `Carries`, and m is not a client-to-server kind; so a violation is reported exactly when no such m exists. |
| MuxSpec.FrameRoundTrip | panctl/mux.c:275-427 | For all 14 kinds, the dispatcher turns a sender's frame back into its message, and refuses TCP_OPEN and UDP_BIND. |
| MuxSpec.ParseResumes | panctl/mux.c:216-265 | Parsing a stream can stop after any byte and resume from the unconsumed bytes with the same messages and violation. |
| MuxSpec.StreamRoundTrip | panctl/mux.c:275-427 | The concatenated frames of any list of sendable messages parse to exactly the list up to its first client-to-server message, with a violation exactly if there is one. |
| WireNumbers.ControlFrames | panctl/mux.c:314-344 | HELLO, BYE, PING and PONG frames byte by byte: version 0, types 1 to 4, stream 0, big-endian length and fields. |
| WireNumbers.TcpFrames | panctl/mux.c:346-394 | The six TCP frames byte by byte: types 0x10 to 0x15, stream id, and each payload's layout. |
| WireNumbers.UdpFrames | panctl/mux.c:396-427 | The four UDP frames byte by byte: types 0x20 to 0x23, stream id, and each payload's layout. |
| WireNumbers.Constants | panctl/main.c:493-510 | The HELLO sent on a new channel as twelve bytes, and the RST reasons and address types as numbers. |
| MuxFeed.ChunkingIrrelevant | panctl/mux.c:216-265 | For every byte stream and every split into calls, the calls up to the first violation report the messages and violation of the one-shot parse and leave the same bytes. |
| MuxFeed.StuckForever | panctl/mux.c:245-262 | After a refused frame with a payload, every further non-empty call reports that same violation, delivers nothing and changes nothing. |
| MuxFeed.FeedKeepsResumable | panctl/mux.c:216-265 | What a call leaves is an incomplete frame or a refused one that stays, so the next call is always defined. |
| MuxFeed.DeliveredAppend | panctl/mux.c:38-43 | Skipping unset callbacks commutes with processing events one after the other. |
| MuxFeed.AllCalledBack | panctl/mux.c:95-214 | With all thirteen callbacks set, every event of a call is called back. |
| MuxSession.Session.EnsurePayloadCap | panctl/mux.c:45-66 | Doubling from 256 capped at 65535 always reaches the need; the bytes already held are kept. |
| MuxSession.Session.DispatchFrame | panctl/mux.c:95-214 | Reports exactly the event `Dispatch` gives for the current header and the frame's own payload bytes, through the callback if it is set. |
| MuxSession.Session.Feed | panctl/mux.c:216-265 | In any state left by earlier calls, one call terminates, makes exactly the callbacks of the one-shot parse of pending plus new bytes, returns -1 exactly on a violation, leaves phase, header buffer and payload prefix representing exactly the unconsumed bytes, and these are an incomplete frame or a refused one. |
| MuxSession.Session.WriteFrameSmall | panctl/mux.c:275-290 | Writes exactly one frame of at most 64 payload bytes, returning 0 exactly if the transport took all of it. |
| MuxSession.Session.WriteFrameAlloc | panctl/mux.c:292-312 | Writes exactly one frame whose payload is both parts, or nothing if they exceed 65535 bytes. |
| MuxSession.Session.SendHello | panctl/mux.c:314-320 | Performs the send step of the HELLO: its frame is written or nothing is. |
| MuxSession.Session.SendBye | panctl/mux.c:322-328 | Performs the send step of the BYE. |
| MuxSession.Session.SendPing | panctl/mux.c:330-336 | Performs the send step of the PING for nonces of any length, by either writer. |
| MuxSession.Session.SendPong | panctl/mux.c:338-344 | Performs the send step of the PONG for nonces of any length, by either writer. |
| MuxSession.Session.SendTcpOpen | panctl/mux.c:346-355 | Performs the send step of the TCP_OPEN; an address over 16 bytes sends nothing. |
| MuxSession.Session.SendTcpOpenAck | panctl/mux.c:357-363 | Performs the send step of the TCP_OPEN_ACK. |
| MuxSession.Session.SendTcpData | panctl/mux.c:365-372 | Performs the send step of the TCP_DATA; empty or oversize data sends nothing. |
| MuxSession.Session.SendTcpCloseWr | panctl/mux.c:374-378 | Performs the send step of the TCP_CLOSE_WR. |
| MuxSession.Session.SendTcpRst | panctl/mux.c:380-386 | Performs the send step of the TCP_RST. |
| MuxSession.Session.SendTcpWindow | panctl/mux.c:388-394 | Performs the send step of the TCP_WINDOW. |
| MuxSession.Session.SendUdpBind | panctl/mux.c:396-400 | Performs the send step of the UDP_BIND. |
| MuxSession.Session.SendUdpBindAck | panctl/mux.c:402-408 | Performs the send step of the UDP_BIND_ACK. |
| MuxSession.Session.SendUdpPacket | panctl/mux.c:410-421 | Performs the send step of the UDP_PACKET; a bad endpoint or too much payload sends nothing. |
| MuxSession.Session.SendUdpClose | panctl/mux.c:423-427 | Performs the send step of the UDP_CLOSE. |
| MuxSession.Session.OnChannelOpened | panctl/main.c:493-510 | A successful open sets the channel and then writes our HELLO on it; a failed one changes nothing. |
| SendQueue.RingPush | panctl/main.c:165-183 | Storing at tail and advancing it modulo 64 appends to the ring's contents as long as it does not catch up with head. |
| SendQueue.RfcommQueue.Enqueue | panctl/main.c:174-183 | Appends to the FIFO exactly if fewer than 63 frames are queued and the frame has at most 1100 bytes; otherwise changes nothing. |
| SendQueue.RfcommQueue.Write | panctl/main.c:194-222 | Sends directly only on an empty queue, queues on back-pressure with a wake-up request, and reports the length exactly if the frame was accepted. |
| SendQueue.RfcommQueue.Drain | panctl/main.c:224-244 | Hands the queued frames over oldest first until refused, for any sequence of answers. |
| SendQueue.RfcommQueue.OnCanSendNow | panctl/main.c:523-526 | Clears the request and drains. |
| SendQueue.RfcommQueue.OnClosed | panctl/main.c:512-519 | Performs the close step: no channel, nothing queued or requested (see SendQueueSpec.ClosedIsSilent). |
| SendQueueSpec.StepKeepsFifo | panctl/main.c:165-244 | In every state and for every event, accepted frames stay those with a fate followed by the queued ones, each once and in order, and RFCOMM got exactly those with fate Sent. |
| SendQueueSpec.StepKeepsInv | panctl/main.c:165-244 | At most 63 frames of at most 1100 bytes are queued and a request is pending exactly if the queue is not empty; this is kept exactly unless queued frames are re-opened on channel 0. |
| SendQueueSpec.StepKeepsNeverStuck | panctl/main.c:185-192 | A queued frame always has a wake-up outstanding on its own channel; an event keeps this exactly if it is harmless, that is, not an open of another channel on top of queued frames. |
| SendQueueSpec.RunKeeps | panctl/main.c:165-244 | All three facts hold in every state that a run of harmless events reaches. |
| SendQueueSpec.OpenWhenClosedIsHarmless | panctl/main.c:493-521 | Opens that come only when the channel is closed are harmless. |
| SendQueueSpec.DrainEmpties | panctl/main.c:224-244 | A drain whose sends are all accepted moves the whole ring onto the wire in order. |
| SendQueueSpec.NothingLost | panctl/main.c:194-244 | On every run without closes and hard drain failures, what RFCOMM got followed by what is queued is everything accepted, once each and in order. |
| SendQueueSpec.WriteExactly | panctl/main.c:194-222 | A write is reported as the frame's length exactly if the channel is open and the frame goes straight out or finds room (fewer than 63 queued, at most 1100 bytes, no hard failure); then it is on the wire or at the end of the queue with a wake-up requested; otherwise it is -1 and nothing changes. |
| SendQueueSpec.DrainExactly | panctl/main.c:224-244 | A drain handles the frames up to the first back-pressure answer, one answer each: those answered 0 are sent, the others dropped; the rest stays queued with a wake-up requested. |
| SendQueueSpec.ChannelIsHistory | panctl/main.c:493-519 | On every run the channel is that of the last successful open since the last close, and 0 if there is none. |
| SendQueueSpec.ClosedIsSilent | panctl/main.c:512-519 | After a close, over any events without a successful open, every write returns -1, nothing is accepted, sent, dropped or queued, and any open is harmless. |
| LongFrames.IntactExactly | panctl/main.c:194-222 | A frame reaches RFCOMM whole exactly if its payload has at most 65529 bytes; of a longer one at most five bytes do. Alone on the wire, it is received exactly if it is whole. |
| LongFrames.LongFrameReported | panctl/main.c:194-222 | A frame that is too long is reported as written exactly if the channel is open, nothing is queued and RFCOMM accepts; then its first bytes past a multiple of 65536 go out, otherwise nothing happens. |
| LongFrames.SkewForever | panctl/mux.c:216-265 | A receiver that starts late in a stream of frames and still gets the same messages ends behind the end of their frames: out of step, it never gets back in. |
| LongFrames.ReceivedExactly | panctl/mux.c:216-265 | Of any list of sent messages, a receiver gets exactly those up to the first it refuses and stops at that one's frame (or at the end) exactly if each of them went out whole. |
| EndToEnd.EndToEnd | panctl/mux.c:216-312 | For every run of sends, drains with arbitrary answers, opens and closes, the bytes RFCOMM accepted, fed in any chunks to a second session, are reported as exactly the sent messages in acceptance order up to the first client-to-server one, in step and with nothing left over, the queued frames being those of the remaining accepted messages, exactly if each message to be reported went out whole. If all sent messages are to be reported, the equivalence holds without asking for the receiver to be in step. |
| EndToEnd.LosslessPrefix | panctl/main.c:194-244 | Without closes and hard drain failures, what has got through is the accepted messages that are no longer queued, and the receiver reports these up to the first client-to-server one, in step, exactly if each message to be reported went out whole; with no client-to-server message it then reports all of them, without a protocol error or a rest. |
| EndToEnd.DrainDelivers | panctl/main.c:224-244 | A can-send-now event whose sends are all accepted gets everything that was accepted through. |
| EndToEnd.EndToEndKotlin | wake-android-tether/app/src/main/java/com/fournoha/wakeandroidtether/mux/Frame.kt:94-107 | On the same runs the Kotlin reader reads exactly the sent messages' frames, of all kinds, to a clean end, exactly if all of them went out whole. |
| ByChance.ArrivesByChance | panctl/main.c:194-222 | A run on which a message that did not go out whole is reported all the same, by the bytes of the frames after it, so that being in step cannot be dropped when something follows a client-to-server message. |
| InternetChecksum.ComputeChecksum | panctl/ipv4.c:23-39 | With additions wrapping at 32 bits, computes the folded complement of the word sum; the fold loop is shown to run at most twice. |
| InternetChecksum.FoldIsResidue | panctl/ipv4.c:36-37 | The fold is the sum modulo 65535, with 65535 for 0 unless the sum is 0. |
| InternetChecksum.FoldIsOnesSum | panctl/ipv4.c:26-38 | Folding the plain sum is RFC 1071 end-around-carry addition throughout. |
| InternetChecksum.NoOverflowExactly | panctl/ipv4.c:26-34 | 131074 bytes is exactly the length up to which no buffer overflows the accumulator. |
| InternetChecksum.ChecksumIsRfc1071 | panctl/ipv4.c:23-39 | Up to that length the result is the complement of the RFC 1071 sum, the nonzero representative modulo 65535 unless all words are zero. |
| InternetChecksum.ChecksumRightExactly | panctl/ipv4.c:23-39 | At any length the result is right exactly if the lost carries are a multiple of 65535 and do not leave a 0 behind. |
| InternetChecksum.SelfValidates | panctl/ipv4.c:106-107 | Filling a zeroed checksum field at an even offset makes the whole buffer check to 0, also with 0xFFFF for a computed 0. |
| Ipv4.ParseUdp | panctl/ipv4.c:41-83 | Every accepted parse keeps its view inside the packet and the packet inside the buffer, with consistent lengths. |
| Ipv4.UdpRoundTrip | panctl/ipv4.c:41-146 | Parsing a built packet, whatever trails it, returns every field and the datagram. |
| Ipv4.UdpPacketValid | panctl/ipv4.c:94-143 | The header checksum and the UDP checksum of every built packet check to 0, and the UDP checksum field is never 0. |
| Ipv4.BuildUdp | panctl/ipv4.c:85-146 | Succeeds exactly if 28 plus the datagram fits the capacity and the datagram has at most 65496 bytes; then the packet is at the front of the buffer and the rest is untouched. |
| PacketLayout.ParseUdpExactly | panctl/ipv4.c:41-83 | A packet is accepted with a view exactly if it is an IPv4 header with any options, a UDP header, the datagram, any padding and any tail, and the view is their fields; stated without the parser. |
| PacketLayout.UdpPacketLayout | panctl/ipv4.c:85-146 | Every UDP packet built, field by field: no options, no fragmentation, the given TTL, protocol 17, addresses, ports and lengths. |
| PacketLayout.ParseTcpExactly | panctl/tun_tcp.c:244-270 | A packet is accepted by the shim exactly if it is an IPv4 header with any options, a TCP header with any options, a payload and any tail, and what is read is their fields; stated without the parser. |
| PacketLayout.SegmentLayout | panctl/tun_tcp.c:182-229 | Every segment written, field by field: tun address family, "don't fragment", TTL 64, protocol 6, addresses and ports from the remote end to the local one, numbers, flags, window 32768, and on a SYN the MSS option of 900. |
| TunSegment.BuildSegment | panctl/tun_tcp.c:182-229 | Succeeds exactly if the segment fits; then the framed packet is at the front of the buffer and the connection's ip_id has advanced, otherwise nothing changed. |
| TunSegment.PacketValid | panctl/tun_tcp.c:74-91 | The IP and TCP checksums of every segment that fits the scratch area check to 0. |
| TunSegment.PacketRoundTrip | panctl/tun_tcp.c:182-270 | A built packet read by the shim's own parser comes from the connection's remote end, goes to its local end, and carries its sequence number, the flags and the payload. |
| TunTable.OtherSlotsUnchanged | panctl/tun_tcp.c:244-408 | An event leaves every slot but its own and all ages unchanged; a sweep leaves every slot not in SYN_RCVD. |
| TunTable.SweepIsPointwise | panctl/tun_tcp.c:433-456 | A sweep treats every slot alike and alone. |
| TunTable.SweepsRecycle | panctl/tun_tcp.c:433-456 | After 31 sweeps in a row no slot is in SYN_RCVD, from any table with ages of at most 30. |
| TunHistory.Reachable | panctl/tun_tcp.c:244-456 | On every run, each slot's state, stream id, tuple and both sequence numbers are those its tenancy's history calls for; its segments tile the sequence space from the ISN over, and occupy exactly, one number per SYN-ACK and FIN and per byte; they are, in order, those due: SYN, FIN, RST and data segments by their flags and an ACK one past each payload and each FIN, each with its acknowledgement number and counting identification numbers; they carry exactly the mux data in pieces of at most 900 bytes; its TCP_DATA frames carry exactly the packets' payloads, and its other mux frames are exactly one OPEN to the destination, one CLOSE_WR per FIN and the RST due. |
| TunHistory.StepKeeps | panctl/tun_tcp.c:244-456 | Every event keeps that, and that no two live slots share a tuple. |
| TunHistory.DataOutput | panctl/tun_tcp.c:362-379 | A data block is cut into pieces of at most 900 bytes whose concatenation is the block, tiling from the slot's next number. |
| TunHistory.LookupsAgree | panctl/tun_tcp.c:130-155 | In every reachable state both linear scans are the abstract maps: a tuple or id finds slot i exactly if slot i is live under it, the id being 0xE000 + i. |
| TunHistory.FreedExactly | panctl/tun_tcp.c:312-340 | A live slot is freed exactly by the second of local FIN and CLOSE_WR, an RST from either side, a failed OPEN_ACK, or the sweep that finds it waiting at age 30. |
| TunHistory.InOrderExactly | panctl/tun_tcp.c:323-340 | After a payload or FIN packet the next expected number is the byte-exact one exactly if the packet carried the one expected before. |
| TunHistory.WaitsAtMost | panctl/tun_tcp.c:433-456 | On every run a waiting tenancy has seen at most 30 sweeps, less the age it inherited. |
| TunHistory.WrittenSegmentsValid | panctl/tun_tcp.c:182-240 | Every segment ever written fits the 1072-byte buffer, has valid checksums, and reads back with its number and piece. |
| TunEvents.SegmentsByFlag | panctl/tun_tcp.c:344-408 | On every run a tenancy's segments are one SYN+ACK per OPEN_ACK of status 0, one FIN+ACK per CLOSE_WR, one RST+ACK (the last) exactly if the mux reset it or failed to open it, PSH+ACKs and plain ACKs, with the flags as numbers. |
| TunEvents.SynOpensExactly | panctl/tun_tcp.c:272-309 | A SYN opens slot i exactly if no live slot has its tuple and i is the first free slot. |
| TunEvents.ActsExactly | panctl/tun_tcp.c:130-155 | Any other packet or message acts on slot i exactly if the slot is live and the packet has its tuple, or the message its id 0xE000 + i. |
| TunEvents.Ignored | panctl/tun_tcp.c:272-408 | An event that acts on no slot changes and writes nothing. |
| TunEvents.SlotNumbers | panctl/tun_tcp.c:293-297 | Slot i's ISN and stream id as numbers. |
| TunEvents.SweepAgesExactly | panctl/tun_tcp.c:433-456 | A sweep ages a slot exactly if it is waiting below 30 and clears every other age. |
| TunReuse.OccupiesExactly | panctl/tun_tcp.c:293-297 | The segments of a tenancy occupy exactly the first so many sequence numbers from the slot's ISN on, in the circle of 32-bit numbers, as its history has used. |
| TunReuse.ReuseOverlaps | panctl/tun_tcp.c:17-20 | In every reachable state, when a SYN opens a slot, then at any time of the new tenancy it has in common with the slot's last one exactly the numbers of the one that used fewer; some exactly if both used any. |
| TunReuse.WaitsExactly | panctl/tun_tcp.c:433-456 | A waiting tenancy waits on through n sweeps exactly if n plus the sweeps seen plus the age it was opened with is at most 30; then it is closed. |
| TunReuse.ReuseRun | panctl/tun_tcp.c:169-174 | For every SYN, the run SYN, sweep, OPEN_ACK, RST, SYN leaves the slot waiting with an inherited age of 1, so the 30th sweep closes it, which the first tenancy would have survived; once answered, it occupies the ISN as the first tenancy did. |
| LinkStream.RefusedExactly | panctl/main.c:174-222 | A sendable message is refused exactly if the channel is closed, RFCOMM fails with nothing queued, or it cannot go out directly and 63 frames are queued or its frame exceeds 1100 bytes; a refusal changes nothing. |
| TunFarEnd.FarEndHears | panctl/tun_tcp.c:244-408 | For every interleaving of the shim's events, other senders, can-send-now events and opens, with any answers: the far end reads what was sent so far to a clean end. A slot's stream on the link is what was accepted of the tenancy, behind what the stream held when the tenancy's OPEN was offered if that was refused (nothing otherwise); the far end has a first part of it unless an OPEN of the stream is still queued, and all of it once the queue is empty. What was accepted is all the tenancy took and, in order, acknowledged exactly if none of its TCP_DATA was refused; otherwise the accepted and the refused bytes add up to it. |
| TunStray.StreamIsOwn | panctl/tun_tcp.c:293-309 | For every reachable state, SYN that opens a slot, and time of the new tenancy: the slot's stream on the link holds the tenancy's bytes alone exactly if its OPEN was not refused or the stream held nothing; otherwise they stand behind the bytes it held. |
| TunStray.AckedAnyway | panctl/tun_tcp.c:323-327 | Any payload packet of a live slot is acknowledged in full, and its bytes are on the stream exactly if its frame was not refused. |
| TunStrayRuns.AckedUnsent | panctl/tun_tcp.c:306-327 | From the start with no channel, a SYN and a packet with ACK and payload establish the connection and acknowledge the payload, of which nothing was accepted. |
| TunStrayRuns.TenanciesMerge | panctl/tun_tcp.c:306-327 | From the start, a run of two connections of slot 0 after which the stream holds both connections' bytes although everything of the second was accepted and acknowledged. |
| PeerToTun.PeerToSegments | panctl/main.c:300-356 | Whatever messages the Kotlin writer's frames carry, cut anywhere, and however their events interleave with packets and sweeps: while a slot lives, its segments carry exactly the TCP_DATA bytes on its stream, in order, tiling its sequence numbers, and it takes exactly the CLOSE_WRs and OPEN_ACKs on it. |
| TunTcp.Shim.FindSlot | panctl/tun_tcp.c:130-167 | The linear scan returns the first matching slot. |
| TunTcp.Shim.WriteSegment | panctl/tun_tcp.c:231-240 | Writes the framed segment and advances ip_id if it fits 1072 bytes; otherwise does nothing. |
| TunTcp.Shim.HandlePacket | panctl/tun_tcp.c:244-340 | Performs the packet's step on table, mux and tun device; what is not laid out as PacketLayout.ParseTcpExactly says changes nothing. |
| TunTcp.Shim.TcpOpenAcked | panctl/tun_tcp.c:344-360 | Performs the OPEN_ACK step; reports whether the id is a live slot's. |
| TunTcp.Shim.TcpDataReceived | panctl/tun_tcp.c:362-379 | Performs the data step for blocks of any length. |
| TunTcp.Shim.TcpCloseWrReceived | panctl/tun_tcp.c:381-396 | Performs the CLOSE_WR step. |
| TunTcp.Shim.TcpRstReceived | panctl/tun_tcp.c:398-408 | Performs the mux RST step, whose one RST segment TunEvents.SegmentsByFlag counts. |
| TunTcp.Shim.DoSweep | panctl/tun_tcp.c:433-456 | Performs the sweep step on all 128 slots. |
| DivertTable.AllocExactly | panctl/divert.c:147-160 | An allocated id is free in both tables; 0 is returned exactly if every nonzero id but the one before next_stream_id is in use. |
| DivertTable.Reachable | panctl/divert.c:147-613 | On every run live TCP and UDP ids are disjoint and nonzero, no TCP stream has both halves closed, and the port map's nonzero entries are the live UDP streams at their own ports. |
| DivertTable.StepKeeps | panctl/divert.c:189-613 | Every event keeps that, and a stream's recorded address and port never change while it lives. |
| DivertTable.PortBijection | panctl/divert.c:512-524 | A port maps to a stream exactly if the stream is live and recorded at that port. |
| DivertTable.InjectedExactly | panctl/divert.c:280-322 | A reply is injected exactly if its stream is live, it names an IPv4 endpoint and has at most 1500 bytes; the injected packet parses to that endpoint, the recorded address and port, and the same bytes. |
| DivertTable.UdpMirror | panctl/divert.c:505-535 | An outbound packet goes to its destination with its own datagram, and a reply on the same stream id, whatever happened while the stream lived, is injected from that destination to the recorded address and the packet's source port; the recorded address is the packet's source exactly if the packet opened the stream or came from the address that did. |
| DivertTable.WriteLoopDelivers | panctl/divert.c:205-228 | However writes are cut and interrupted, the local socket gets a prefix of the data in order, and all of it unless a write fails, which sends RST and frees the stream. |
| DivertTable.ReadLoopForwards | panctl/divert.c:585-613 | All chunks read up to the answer that ends the loop go to the mux in order, a refused last one included, and the stream ends as that answer demands, freed exactly when both halves are closed, the read failed or the mux refused. |
| DivertHistory.StoriesHold | panctl/divert.c:189-613 | On every run, for every TCP stream ever opened: while it lives its table entry is the one its story calls for, and the mux frames sent for it, the operations on its own socket and the bytes the socket took are exactly those the story calls for, in order: an OPEN to the connection's destination, a TCP_DATA per chunk, a CLOSE_WR per end of input, an RST per failure, a shutdown per CLOSE_WR, and one close at its end. |
| DivertHistory.ReadLoopDoes | panctl/divert.c:585-613 | All a read loop does: a TCP_DATA per chunk, then CLOSE_WR exactly if the last answer is the end of input, an RST with reason 1 exactly if reading failed, the refused chunk and an RST with reason 0xFF exactly if the mux refused it; the socket is closed exactly if the stream ends. |
| DivertHistory.WriteLoopDoes | panctl/divert.c:205-228 | All a write loop does: the stream's socket gets what it takes, and exactly if a write fails the mux gets an RST with reason 1, the socket is closed and the stream freed. |
| DivertHistory.AcceptedExactly | panctl/divert.c:431-465 | A connection opens a stream, with an OPEN to its destination, exactly if the destination is known and an id is left; otherwise, and if the OPEN is refused, its socket is closed. |
| DivertHistory.UnknownIgnored | panctl/divert.c:189-329 | A message for an id that no stream of its kind has does nothing. |
| DivertUdp.OutboundExactly | panctl/divert.c:505-535 | All an outbound packet does: nothing if it does not parse or no id is left; otherwise its datagram to its destination on its port's stream, after a BIND exactly if it opens that stream, which is recorded at its source. |
| DivertUdp.LivesExactly | panctl/divert.c:264-329 | A live UDP stream ends exactly by a BIND_ACK other than 0 or a UDP_CLOSE, which free its port, and is acknowledged exactly from its first BIND_ACK of 0 on. |
| DivertUdp.InjectedLayout | panctl/divert.c:280-322 | An injected packet byte by byte: address family in front exactly on a tun device, TTL 64, an identification number that counts up. |
| DivertUdp.FirstFree | panctl/divert.c:147-160 | An allocated id is the first free nonzero one from next_stream_id on, wrapping around. |
| DivertTable.AcceptLoopIsRun | panctl/divert.c:416-466 | The accept loop, for any answers of accept4, is a run of the connections taken before the answer that ends it, in its tables and in all it does, and returns -1 exactly for a hard error. |
| DivertExhausted.LastFreedIsMissed | panctl/divert.c:147-160 | With all ids in use after the last one was given out, ending that stream leaves the allocator reporting exhaustion, and ending any other makes it return that one. |
| DivertExhausted.ExhaustedWithOneFree | panctl/divert.c:147-160 | From the start, every run that opens 65535 streams, by connections or packets, and ends the last leaves id 65535 free and the allocator reporting exhaustion. |
| DivertExhausted.ExhaustedByQueries | panctl/divert.c:505-535 | Such a run: one packet from each of 65535 source ports and the peer's UDP_CLOSE of the last stream. |
| DivertFarEnd.NothingLostSilently | panctl/divert.c:585-613 | With the link behind the read loop, for any reads and answers: the stream gets all that was read exactly if no chunk was refused; otherwise just the refused last chunk is missing, and the stream is freed. |
| Divert.Session.AllocStreamId | panctl/divert.c:147-160 | The scan returns the specified id and moves the cursor past it, or returns 0 and changes nothing. |
| Divert.Session.UdpStreamFree | panctl/divert.c:174-185 | Removes the stream and its port entry, if that is its own. |
| Divert.Session.TcpOpenAcked | panctl/divert.c:189-203 | Performs the OPEN_ACK step. |
| Divert.Session.TcpDataReceived | panctl/divert.c:205-228 | Performs the data step against any sequence of write answers. |
| Divert.Session.TcpCloseWrReceived | panctl/divert.c:230-241 | Performs the CLOSE_WR step. |
| Divert.Session.TcpRstReceived | panctl/divert.c:243-249 | Performs the RST step. |
| Divert.Session.UdpBindAcked | panctl/divert.c:264-278 | Performs the BIND_ACK step. |
| Divert.Session.UdpPacketReceived | panctl/divert.c:280-322 | Performs the reply step, building the packet in its 1528-byte buffer. |
| Divert.Session.UdpCloseReceived | panctl/divert.c:324-329 | Performs the UDP_CLOSE step. |
| Divert.Session.TcpAccepted | panctl/divert.c:431-465 | Performs the accept step for one connection: its original destination, its id, its stream and its OPEN. |
| Divert.Session.TcpAcceptable | panctl/divert.c:416-466 | Performs the accept loop against any sequence of accept answers, returning -1 exactly on a hard error. |
| Divert.Session.OutboundUdp | panctl/divert.c:505-535 | Performs the outbound packet step. |
| Divert.Session.TcpReadable | panctl/divert.c:585-613 | Performs the read loop against any sequence of read answers, with the effects DivertHistory.ReadLoopDoes states. |
| CreditSpec.CreditTheorem | wake-android-tether/app/src/main/java/com/fournoha/wakeandroidtether/mux/TcpStream.kt:129-184 | Under every interleaving the window is never negative, bytes sent never exceed credit consumed nor that the initial window plus credit received less what saturation clipped, bytes read are sent once and in order, and a pump parked on an empty channel with a positive window has an updater about to signal. |
| CreditSpec.StepKeepsWakeup | wake-android-tether/app/src/main/java/com/fournoha/wakeandroidtether/mux/TcpStream.kt:172-180 | Every single step keeps the wake-up of a parked pump with credit. |
| CreditSpec.WakesUp | wake-android-tether/app/src/main/java/com/fournoha/wakeandroidtether/mux/TcpStream.kt:129-135 | A parked pump with credit can receive now or after one updater signals, no updater can undo that, and having received it reads with the whole window. |
| CreditSpec.CreditReturned | wake-android-tether/app/src/main/java/com/fournoha/wakeandroidtether/mux/TcpStream.kt:104-121 | Over any sequence of forwarded blocks, credits returned plus the remainder equal the bytes forwarded, the remainder stays below 16384, and no smaller credit is sent. |
| CreditSpec.UpdateExactly | wake-android-tether/app/src/main/java/com/fournoha/wakeandroidtether/mux/TcpStream.kt:129-133 | A window update adds its credit in full up to 0x7FFFFFFF, and books a loss exactly beyond that. |
| CreditSpec.AllCreditCounts | wake-android-tether/app/src/main/java/com/fournoha/wakeandroidtether/mux/TcpStream.kt:129-184 | On every run whose initial window and updates sum to at most 0x7FFFFFFF, the window plus what was sent or is about to be is exactly that sum. |
| CreditSpec.CreditRestarts | wake-android-tether/app/src/main/java/com/fournoha/wakeandroidtether/mux/TcpStream.kt:129-180 | A parked pump reads on with the whole window as soon as an update with credit has signalled. |
| CreditSpec.ParksAgain | wake-android-tether/app/src/main/java/com/fournoha/wakeandroidtether/mux/TcpStream.kt:172-180 | A wake-up without credit is used up: the pump parks again and only a further signal wakes it. |
| CreditSpec.CancelStops | wake-android-tether/app/src/main/java/com/fournoha/wakeandroidtether/mux/TcpStream.kt:172-180 | A parked pump stops, without a frame, exactly once it is cancelled. |
| CreditSpec.EndsOnce | wake-android-tether/app/src/main/java/com/fournoha/wakeandroidtether/mux/TcpStream.kt:146-170 | On every run the stream is ended at most once, by CLOSE_WR exactly at the socket's end and by an RST with reason 1 exactly if reading failed, and nothing is sent after it. |
| TcpStream.Stream.UpdatePeerWindow | wake-android-tether/app/src/main/java/com/fournoha/wakeandroidtether/mux/TcpStream.kt:129-133 | Performs the locked update, clipped to the largest Int. |
| TcpStream.Stream.TrySend | wake-android-tether/app/src/main/java/com/fournoha/wakeandroidtether/mux/TcpStream.kt:134-134 | Leaves exactly one token in the channel. |
| TcpStream.Stream.CheckCredit | wake-android-tether/app/src/main/java/com/fournoha/wakeandroidtether/mux/TcpStream.kt:172-177 | Performs one pass of the credit wait up to the receive. |
| TcpStream.Stream.ConsumeCredit | wake-android-tether/app/src/main/java/com/fournoha/wakeandroidtether/mux/TcpStream.kt:182-184 | Takes the bytes read from the window. |
| TcpStream.Stream.EndOfInput | wake-android-tether/app/src/main/java/com/fournoha/wakeandroidtether/mux/TcpStream.kt:155-158 | Sends CLOSE_WR and ends the pump. |
| TcpStream.Stream.ReadFailure | wake-android-tether/app/src/main/java/com/fournoha/wakeandroidtether/mux/TcpStream.kt:163-166 | Sends RST and ends the pump. |
| TcpStream.Stream.OnPeerData | wake-android-tether/app/src/main/java/com/fournoha/wakeandroidtether/mux/TcpStream.kt:104-121 | Performs the credit-return step if the socket took the data, and none otherwise; the remainder is below 16384. |
| KotlinFrame.HeadersAgree | wake-android-tether/app/src/main/java/com/fournoha/wakeandroidtether/mux/Frame.kt:113-124 | Kotlin and C headers are byte-identical, and Kotlin refuses exactly ids and lengths without a 16-bit form. |
| KotlinFrame.HellosAgree | wake-android-tether/app/src/main/java/com/fournoha/wakeandroidtether/mux/Frame.kt:127-155 | HELLOs are byte-identical for all field values modulo their widths, and any payload decodes alike on both sides. |
| KotlinFrame.KotlinToC | wake-android-tether/app/src/main/java/com/fournoha/wakeandroidtether/mux/Frame.kt:157-184 | A Kotlin endpoint decodes in C to the same value exactly if its address has at most 16 bytes, as every IPv4 and IPv6 one has. |
| KotlinFrame.DecodeEndsAs | wake-android-tether/app/src/main/java/com/fournoha/wakeandroidtether/mux/Frame.kt:189-203 | On every payload, `Endpoint.decode` raises IOException exactly if header or address do not fit, returns an endpoint exactly if they fit, the port is nonzero and the type goes with the length, and otherwise raises an unchecked exception. |
| KotlinFrame.UndeclaredInputs | wake-android-tether/app/src/main/java/com/fournoha/wakeandroidtether/mux/Frame.kt:189-203 | Three inputs for the latter: an IPv4 address of 20 bytes, port 0, and an unknown type. |
| KotlinFrame.DecodersAgree | wake-android-tether/app/src/main/java/com/fournoha/wakeandroidtether/mux/Frame.kt:189-203 | On every payload, decoders that both accept agree; each accepts what the other does exactly under the stated port, type and length conditions, and where only Kotlin refuses it is by an unchecked exception. |
| KotlinFrame.KotlinReadsWhatCSends | wake-android-tether/app/src/main/java/com/fournoha/wakeandroidtether/mux/Frame.kt:94-107 | Any list of messages of all 14 kinds sent by C is read frame by frame with the same kind, stream and payload, to a clean end. |
| KotlinFrame.FramesAgree | wake-android-tether/app/src/main/java/com/fournoha/wakeandroidtether/mux/Frame.kt:94-107 | Both sides cut any byte stream into the same frames. |
| KotlinWriter.WritesFrame | wake-android-tether/app/src/main/java/com/fournoha/wakeandroidtether/mux/FrameWriter.kt:42-50 | The writer refuses exactly what has no 16-bit id or length, also when the sum of the sizes wraps, and writes the frame C would. |
| KotlinWriter.KotlinToMux | wake-android-tether/app/src/main/java/com/fournoha/wakeandroidtether/mux/FrameWriter.kt:40-54 | Whatever frames the Kotlin writer is given, cut anywhere, the session reports exactly a list of messages without error or rest exactly if the frames up to the first refused one carry them one by one. |

## Left out

- MuxSession.Session.EnsurePayloadCap: does not model allocation failure; `realloc`, `malloc` and `calloc` succeed throughout.
- SendQueue.RfcommQueue.Enqueue: a ring entry is the sequence of its used bytes; the unused tail of its 1100-byte array is not modelled.
- TunHistory.Reachable: the expected peer sequence number is claimed for in-order arrival only, because the shim forwards payload without looking at the sequence number.
- TunTcp.Shim.HandlePacket: the result of each mux send is ignored, as in the code, so a TCP_DATA frame counts as forwarded when it is offered to the mux; `TunFarEnd` says what becomes of it.
- TunFarEnd.FarEndHears: an ignored send result is modelled as in the code; what others send on the link is assumed not to be on the slot's stream id; `divert.c` may use it after many allocations.
- DivertTable.InjectedExactly: for an IPv4 endpoint with fewer than four address bytes the code uses uninitialised bytes; they are the parameter `unwritten`.
- CreditSpec.CreditTheorem: a coroutine's cancellation takes effect only where it waits or checks its scope.
- BTstack, HCI, SDP, pairing, timers, arguments, the control socket and the test-tcp mode are not part of this model.
- `pf`, the tun device, `accept`, `read`, `write` and `getsockname` are replaced by their answers and by logs of what was written.
- PeerToTun.PeerToSegments: of main.c's dispatch only the shim's part is composed with the session; what the shim does not handle goes to the divert tables, whose callbacks are modelled on their own. Disjointness of the shim's and the divert tables' stream ids is not claimed, since it does not hold after many allocations.
- A channel close does not reset the session's parser, so a clean parse after a reconnect is not claimed for one receiver across connections of the peer.
- Progress of long transfers beyond the initial window is not claimed: nothing calls the TCP_WINDOW sender.
- `divert_drain_active_tcp` and `divert_handle_fd` only select streams for the read loop; `cb_tcp_window` does nothing.
- `FrameWriter`'s channel and coroutine, `UdpStream`, `MuxServer` and the Android services are coroutine and platform plumbing; a failing write to the socket ends the writer and is not modelled.
