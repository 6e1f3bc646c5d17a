# lanturn, modelled and verified in Dafny

lanturn carries a byte stream inside fake media packets through a TURN relay. This project models six
parts of it and proves what they guarantee, over every input, every run or every reachable state.

- **Streaming chunker** (`Chunker`, `ChunkerRuns`, `ChunkerConn`, `BytesPipe`): writes are queued,
  each 20 ms tick packs what is waiting into a packet of random size, the receiver appends data packets
  to a pipe. Data packets carry no length, so the random tail of an under-filled one is delivered too.
  The documented promise of a transparent byte stream therefore does not hold unconditionally; the
  project proves exactly when it holds, exactly what is received otherwise, and a run where it fails.
- **Packet mux and end to end** (`PacketMux`, `EndToEnd`): the DTLS/SRTP classifier, and the chunker,
  SRTP, mux and receive loop composed over a lossless in-order relay, in both directions.
- **STUN codec** (`Stun`, `StunTheorems`, `StunMessage`): printer, parser, the two length fix-ups, and
  verifiers written from RFC 8489.
- **ChannelData and stream framing** (`ChannelData`, `StreamFraming`, `Auth`): RelayConn over
  datagrams, STUN and ChannelData mixed on one TLS stream, and the expiring credentials.
- **Egress demuxer** (`Demuxer`, `DemuxerTheorems`, `DemuxerObject`): reader,
  consumers and teardown over a shared map of channels, and exactly which runs crash the program.
- **Fleet selector and session loop** (`Fleet`, `FleetRuns`, `RunClient`) and **media pacing**
  (`Mimicry`, `RtpClock`).

Conventions. A random draw is an arbitrary `uint32`; a clock reading is an integer input. HMAC-SHA1,
MD5, CRC-32, base64, and RTP with SRTP are parameters: the theorems hold for all functions with the
right output lengths, and for SRTP only inverse encryption and a clear first byte are assumed.
Concurrent code is a machine of atomic steps, and a run is any list of them; `Run` gives None when a
step was not enabled. Imperative code is a method or class proved against those machines or against
functions on values. Automatic induction is switched off so that every induction is written out.
Theorems state constants, bit masks and byte ranges as literal numbers, not by the model's own names.

Where the code and its text disagree the model follows the code: a payload is 110 to 169 bytes,
although comments say 170; the padding comment of the chunker says a data packet's length is its
payload length minus one, which is what makes random tails part of the stream; the mimicry loop's
state-change statistic counts draws of the speech machine, not changes of its state.

Check everything with `dafny verify dfyconfig.toml` (Dafny 4.11).

## Model

| member | source | states |
|---|---|---|
| `Chunker.StepKeepsInv` | pkg/lanturn/lanturn.go:549-610 | Every step of a writer or of a tick keeps: bytes sent, then in the packet, then pending, then queued are the bytes written in order; pending is empty while the packet still has room; at most 64 chunks are queued; packets are 110 to 169 bytes with the right flag |
| `Chunker.SizesDrawn` | pkg/lanturn/lanturn.go:555 | Every size from 110 to 169 is drawn, each by one residue of the random number modulo 60 |
| `ChunkerRuns.Conservation` | pkg/lanturn/lanturn.go:542-585 | For every interleaving of writes with the steps of ticks, no written byte is lost, duplicated or reordered, but for those in a packet whose send failed, which ends the loop and is accounted for |
| `ChunkerRuns.ReceivedLength` | pkg/lanturn/lanturn.go:577-637 | The receiver gets the caller bytes plus exactly the random tails of under-filled data packets; it gets the caller bytes alone if and only if no data packet is under-filled |
| `ChunkerRuns.PrefixExactlyWhenFed` | pkg/lanturn/lanturn.go:555-637 | At every moment of a run the receiver holds a prefix of what was written, if and only if every tick that sent a packet was offered zero bytes or at least payloadSize - 1 |
| `ChunkerRuns.PrefixExactlyWhenFull` | pkg/lanturn/lanturn.go:577-637 | The same, in terms of the packets: if and only if no data packet of the run was under-filled |
| `ChunkerRuns.UnderFilledOverruns` | pkg/lanturn/lanturn.go:581-585 | Right after an under-filled data packet the receiver holds more bytes than were ever written |
| `ChunkerRuns.StreamPromiseFails` | pkg/lanturn/lanturn.go:581-585 | A concrete run: one byte is written and the receiver reads it followed by payloadSize - 2 random bytes |
| `ChunkerRuns.TickTakes` | pkg/lanturn/lanturn.go:553-585 | A tick sends one packet of the drawn size that takes exactly min(backlog, payloadSize - 1) bytes, counting writes that land inside the tick |
| `ChunkerRuns.DrainTime` | pkg/lanturn/lanturn.go:544-575 | With no writes a backlog of B bytes is gone after k ticks if 109k >= B and not gone if 168k < B |
| `ChunkerRuns.DestinationFirst` | pkg/lanturn/lanturn.go:542-585 | The first bytes delivered are the destination prefix for any sizes, spans and concurrent writes; 109 of its bytes arrive per tick |
| `ChunkerRuns.PendingBounded` | pkg/lanturn/lanturn.go:544-575 | pending never exceeds the larger of the destination prefix and the largest single write |
| `ChunkerRuns.RtpHeaders` | pkg/lanturn/lanturn.go:538-608 | Packet k carries sequence number seq0 + k mod 2^16 and timestamp ts0 + 960k mod 2^32 |
| `ChunkerRuns.TimestampsRepeat` | pkg/lanturn/lanturn.go:608 | Two packets the chunker sent share a timestamp exactly when they are a multiple of 2^26 apart |
| `ChunkerRuns.AfterHalt` | pkg/lanturn/lanturn.go:550-606 | Once the loop has returned, nothing more is sent and writers get in only what the queue has room for |
| `RtpClock.OpusPeriod` | pkg/lanturn/lanturn.go:608 | Timestamps with increment 960 coincide exactly for packets a multiple of 2^26 apart |
| `RtpClock.VideoPeriod` | cmd/lanturn-phase3/main.go:803 | Timestamps with increment 3000 coincide exactly for packets a multiple of 2^29 apart |
| `RtpClock.ScreenPeriod` | cmd/lanturn-phase3/main.go:803 | Timestamps with increment 9000 coincide exactly for packets a multiple of 2^29 apart |
| `ChunkerConn.TxLoop.Write` | pkg/lanturn/lanturn.go:644-653 | Write queues the whole chunk, blocks exactly when 64 are queued, and fails only after cancellation |
| `ChunkerConn.TxLoop.StartPacket` | pkg/lanturn/lanturn.go:555-563 | The in-place start of a packet is the Begin step |
| `ChunkerConn.TxLoop.TakeChunk` | pkg/lanturn/lanturn.go:564-575 | One in-place iteration of the drain loop is the Dequeue step; needed stays payloadSize - 1 - n, so the client's copy offset is the server's 1 + n |
| `ChunkerConn.TxLoop.Drain` | pkg/lanturn/lanturn.go:564-575 | The whole drain loop, with writes landing between its iterations, is a run of the machine and stops only when the packet is full or the queue empty |
| `ChunkerConn.TxLoop.Send` | pkg/lanturn/lanturn.go:577-608 | Flag, random tail, packet and clock advance are the Finish step |
| `ChunkerConn.TxLoop.Tick` | pkg/lanturn/lanturn.go:553-610 | One ticker event appends to the connection's history a Begin with its draw, steps of the drain loop and of writers, and either the send or, when encrypting or sending fails, the end of the loop; the payload sent is the flag, the bytes taken, and exactly the leading random bytes it was given |
| `ChunkerConn.TxLoop.Wake` | pkg/lanturn/lanturn.go:549-606 | One round of the loop's select goes on exactly when the ticker fired and the packet was sent, with the history grown by one tick of the given draw and random bytes; it ends on cancellation or an error |
| `ChunkerConn.ObjectTick` | pkg/lanturn/lanturn.go:553-609 | What a call of Tick took from the backlog, for an object with any history |
| `ChunkerConn.ObjectKeepsPromises` | pkg/lanturn/lanturn.go:536-653 | After any calls on a connection, conservation, the prefix condition and the destination rule hold of its whole history |
| `BytesPipe.Pipe.Write` | pkg/lanturn/lanturn.go:853-861 | Appends to the stream unless the pipe is closed |
| `BytesPipe.Pipe.Read` | pkg/lanturn/lanturn.go:863-876 | Reads return the accepted bytes in order, also after Close; EOF comes exactly when the pipe is closed and everything accepted was read |
| `BytesPipe.Pipe.Close` | pkg/lanturn/lanturn.go:885-891 | Closing keeps the bytes already accepted |
| `BytesPipe.RxPacket` | pkg/lanturn/lanturn.go:621-639 | One datagram adds its body to the stream only if it opens, is non-empty and carries the data flag, and the pipe is still open |
| `BytesPipe.RxLoop` | pkg/lanturn/lanturn.go:613-641 | The receive loop appends exactly the bodies of the data packets that decrypt, parse and are non-empty, up to the moment another goroutine closes the pipe |
| `BytesPipe.RxOfSealed` | pkg/lanturn/lanturn.go:613-641 | Undoing RTP and SRTP on the sender's packets gives the stream the chunker theorems describe |
| `PacketMux.NothingLost` | pkg/lanturn/lanturn.go:916-963 | In every reachable state the packets a consumer has read, its channel holds and the reader holds are exactly the packets received, in order, whose first byte is 20 to 25 for DTLS and 128 to 191 for SRTP; channels hold at most 64; a packet is abandoned only after Close |
| `PacketMux.ClosedExactly` | pkg/lanturn/lanturn.go:930-952 | Over every run the mux is closed exactly after Close and its reader stops exactly by giving up a packet |
| `PacketMux.MuxObject.Take` | pkg/lanturn/lanturn.go:917-942 | One read of the reader is the Arrive step; it keeps a packet exactly when its first byte is 20 to 25 or 128 to 191 |
| `PacketMux.MuxObject.Hand` | pkg/lanturn/lanturn.go:930-941 | The blocking send appends to the channel of the packet's first byte when fewer than 64 wait there; after Close the reader may stop instead, and must if there is no room |
| `PacketMux.MuxObject.ReadSRTP` | pkg/lanturn/lanturn.go:956-963 | Copies the oldest SRTP packet, cut to the caller's buffer, waits when there is none, and reports the end of file only after Close |
| `PacketMux.SingleSourceConn.Read` | pkg/lanturn/lanturn.go:1037-1057 | Copies into the caller's buffer the replayed first packet and then the peer's next datagram, cut to 4096 bytes and to that buffer, skipping exactly the datagrams of other sources before it |
| `EndToEnd.SrtpIsSent` | pkg/lanturn/lanturn.go:917-942 | Of what arrives, the datagrams that the mux puts into the SRTP class and that open are exactly the sent ones in order, by the clear first byte of each packet |
| `EndToEnd.StreamDelivered` | pkg/lanturn/lanturn.go:536-963 | End to end, when the relay let through the first n packets in order and mixed in any DTLS, other-class or unopenable SRTP datagrams: the bytes delivered are a prefix of the packets' stream, begin with the destination prefix, are a prefix of what was written if every data packet was full, and are the whole stream once as many packets that open are read as were sent |
| `EndToEnd.DownlinkDelivered` | internal/turn/turn.go:225-251 | The same for the way back, through RelayConn and any other datagrams on its socket; the server sends no destination prefix |
| `StunTheorems.RoundTrip` | internal/stun/stun.go:116-217 | Decode(Encode(m)) gives type, transaction id and attributes in order plus exactly what was added, if and only if the attributes fit the 16-bit length or the message has one wrapping shape (nothing added, last attribute body of 65533 to 65535 bytes, total below 131072) |
| `StunTheorems.AddedAttrs` | internal/stun/stun.go:119-157 | Encode adds after the caller's attributes exactly a 20-byte MESSAGE-INTEGRITY if a key is given and a 4-byte FINGERPRINT if asked |
| `StunTheorems.EncodedShape` | internal/stun/stun.go:127-159 | Every encoded message is 4-aligned, at least 20 bytes long and starts with its type, the magic cookie 21 12 A4 42 in place and its transaction id; its length is 20 plus the length field exactly when it fits |
| `StunTheorems.IntegrityVerdict` | internal/stun/stun.go:133-148 | The verdict of a verifier written from section 14.5 of RFC 8489 on any fitting message is that of its first MESSAGE-INTEGRITY attribute |
| `StunTheorems.SignedVerifies` | internal/stun/stun.go:133-148 | Every message Encode signs passes that verifier under the same key, although its final length also counts a FINGERPRINT |
| `StunTheorems.FingerprintVerifies` | internal/stun/stun.go:150-157 | Every fingerprinted message passes a verifier written from section 14.7 of RFC 8489: its last attribute differs from the CRC of all before it in exactly the bits set in 5354554e |
| `StunTheorems.FingerprintIsXor` | internal/stun/stun.go:150-157 | That verdict admits one value only, the CRC exclusive or the constant |
| `Common.Xor32Bits` | internal/stun/stun.go:153 | Each of the 32 bits of the exclusive or is set exactly when the operands differ there |
| `StunTheorems.DecodeVerdict` | internal/stun/stun.go:165-197 | Decode's verdict on every buffer: the three header errors exactly, else a walk over TLVs that start on multiples of four, which returns all of them or stops at the one whose header or body is cut |
| `StunTheorems.DecodeTiles` | internal/stun/stun.go:165-217 | A decoded message whose buffer ends at its declared length re-encodes to itself with only padding zeroed, if and only if that length is a multiple of four |
| `StunTheorems.UnpaddedAccepted` | internal/stun/stun.go:199-215 | A message of the other kind that Decode accepts: a last attribute without its padding |
| `StunTheorems.ZeroPaddingOnlyZeroes` | internal/stun/stun.go:193-215 | Zeroing the padding of a TLV area changes no byte to anything but zero |
| `StunMessage.EncodeAttr` | internal/stun/stun.go:207-217 | One TLV: type, 16-bit length, body, zero padding |
| `StunMessage.EncodeAttrs` | internal/stun/stun.go:199-205 | The attribute loop prints the TLVs in order |
| `StunMessage.Message.AddAttr` | internal/stun/stun.go:97-99 | Appends one attribute and changes nothing else |
| `StunMessage.Message.Attr` | internal/stun/stun.go:102-109 | The body of the first attribute of a type, None exactly when there is none |
| `StunMessage.Message.Sign` | internal/stun/stun.go:133-148 | The temporary length rewrite, the HMAC and the restored final length |
| `StunMessage.Message.Encode` | internal/stun/stun.go:116-160 | The in-place encoder produces the wire form the theorems speak about |
| `StunMessage.Decode` | internal/stun/stun.go:165-197 | The looped decoder stays in bounds, terminates and computes the parse function, with all five errors |
| `ChannelData.BuildFrame` | internal/turn/turn.go:208-216 | The in-place frame is channel and length in big-endian order, the payload and up to three zero bytes, 4-aligned, and never longer than the 65536-byte read buffer |
| `ChannelData.RelayConn.Write` | internal/turn/turn.go:204-221 | Sends one frame per payload of at most 65531 bytes and refuses longer ones |
| `ChannelData.RelayConn.Refill` | internal/turn/turn.go:227-230 | A datagram overwrites the front of the reused buffer only; the rest keeps its bytes |
| `ChannelData.RelayConn.Read` | internal/turn/turn.go:225-251 | Returns the next payload for this channel cut to the caller's buffer, drops what precedes it, and never returns stale buffer bytes |
| `ChannelData.StunNotChannelData` | internal/turn/turn.go:234-240 | No encoded message with a STUN type, whole or cut anywhere, is ever taken for ChannelData |
| `ChannelData.ForeignFrame` | internal/turn/turn.go:241-244 | Nor is a frame of another channel, padded or not, whole or cut |
| `ChannelData.CutFrame` | internal/turn/turn.go:245-248 | A frame cut inside its payload is dropped |
| `ChannelData.DeliversOwn` | internal/turn/turn.go:204-251 | For any mix of own frames, own frames cut inside their payload, and arbitrary bytes that are short, lead with STUN bits or name another channel, successive reads return exactly this channel's payloads in order |
| `ChannelData.AnyDatagram` | internal/turn/turn.go:226-248 | Every datagram that a read can store is of one of these kinds, so nothing is left out of the mix |
| `StreamFraming.SplitsBack` | cmd/lanturn-phase4/main.go:452-465 | Any sequence of requests and ChannelData frames on one stream splits back into exactly those by a parser written from section 12.4 and section 12.5 of RFC 8656 |
| `StreamFraming.StreamIsUnambiguous` | cmd/lanturn-phase4/main.go:452-465 | Two different frame sequences never share a byte stream |
| `StreamFraming.FramesAligned` | cmd/lanturn-phase4/main.go:450-465 | Every frame starts at a multiple of four |
| `StreamFraming.TlsConn.SendChannelData` | cmd/lanturn-phase4/main.go:452-465 | Appends one padded frame to the stream, or refuses a payload over 65531 bytes |
| `StreamFraming.TlsConn.ReadSTUNFromStream` | cmd/lanturn-phase4/main.go:474-488 | Consumes exactly one self-delimited message, with its three ways to fail |
| `StreamFraming.ReadOne` | cmd/lanturn-phase4/main.go:474-488 | Reading an encoded message off a stream returns it and leaves the rest |
| `StreamFraming.ReadsAll` | cmd/lanturn-phase4/main.go:474-488 | Repeated reads of concatenated messages return them in order and leave nothing over |
| `StreamFraming.ReadCut` | cmd/lanturn-phase4/main.go:474-483 | A stream that ends inside a message is used up, and the failure says whether the header or the body was cut |
| `StreamFraming.ReadRefused` | cmd/lanturn-phase4/main.go:484-488 | A message that Decode refuses is still taken off the stream up to its declared end |
| `Auth.ExpiryRoundTrip` | cmd/lanturn-phase4/main.go:169 | Every 64-bit expiry prints to a colon-free decimal that parses back to it |
| `Auth.SplitsAtFirst` | cmd/lanturn-phase4/main.go:165-168 | The username splits at its first colon, whatever the id contains |
| `Auth.HandlerAnswers` | cmd/lanturn-phase4/main.go:163-178 | The handler returns the client's own key exactly while now <= expiry, and that key is the MD5 of username, realm and base64 HMAC with colons between |
| `Auth.HandlerRefuses` | cmd/lanturn-phase4/main.go:165-172 | No key for a username without a colon or whose first part is no expiry |
| `Auth.ParseRefuses` | cmd/lanturn-phase4/main.go:169 | An expiry with a character other than a digit behind its sign, or of 2^63 and more, is refused |
| `Auth.RequestAttrs` | internal/turn/turn.go:82-89 | The attribute lists of the three authenticated requests put USERNAME before REALM and contain no MESSAGE-INTEGRITY |
| `Auth.RequestCarries` | internal/turn/turn.go:82-168 | Each request carries its own message type, the transport and lifetime, peer address or channel number with literal attribute types, and USERNAME, REALM and NONCE |
| `Auth.RequestOnWire` | internal/turn/turn.go:82-168 | A server decodes all of that from the signed request |
| `Auth.RequestAcceptedUntilExpiry` | internal/turn/turn.go:78-90 | Every authenticated request the client builds is accepted by a decoding, verifying server with the same secret exactly until the expiry |
| `Fleet.PickIsHealthy` | cmd/lanturn-phase2/main.go:530-568 | pick fails exactly when every endpoint is benched, never returns a benched one, and repeats the previous address only if no other is available |
| `Fleet.PickIsDrawn` | cmd/lanturn-phase2/main.go:530-568 | The pick is the candidate at the draw modulo their number, in fleet order, without the previous address if another is available; it is remembered, and a pick forgives exactly the streaks of three and more that are five minutes old |
| `Fleet.FleetSelector.Scan` | cmd/lanturn-phase2/main.go:534-545 | The in-place scan heals the endpoints whose cool-off is over and collects those not benched |
| `Fleet.FleetSelector.Pick` | cmd/lanturn-phase2/main.go:530-568 | The method computes the pick function on the selector's state |
| `Fleet.FleetSelector.RecordSuccess` | cmd/lanturn-phase2/main.go:570-580 | Resets the streak of the first endpoint with that address only |
| `Fleet.FleetSelector.RecordFailure` | cmd/lanturn-phase2/main.go:582-595 | Extends the streak of the first endpoint with that address only, and stamps it from the third failure on |
| `FleetRuns.CountersMeanStreaks` | cmd/lanturn-phase2/main.go:530-595 | In every timed run over distinct addresses each streak counter is the number of failures since the last success or heal, each stamp is the latest failure, and the totals count all failures and successes |
| `FleetRuns.PickByLog` | cmd/lanturn-phase2/main.go:530-595 | In terms of the log: pick fails exactly when every address has such a streak of three within the cool-off, and never returns one that has |
| `FleetRuns.NeverPickedAfterThree` | cmd/lanturn-phase2/main.go:536-543 | Before a pick of an address, a success-free window shorter than five minutes that starts at one of its failures holds at most two of them |
| `RunClient.RunAttempts` | cmd/lanturn-phase2/main.go:212-225 | The attempt loop of one session |
| `RunClient.AttemptsAreEvents` | cmd/lanturn-phase2/main.go:212-225 | A session changes the selector by one failure for each attempt before the first success and then that success, and by nothing else |
| `RunClient.RunClient` | cmd/lanturn-phase2/main.go:202-238 | The session loop: outcome and the endpoint of each session |
| `RunClient.DeadFleet` | cmd/lanturn-phase2/main.go:205-236 | With N distinct endpoints that fail in every attempt of the run, at least three retries and the run's clock readings within the cool-off, each endpoint serves at most one session and more than N sessions end with the no-healthy-endpoint error at session N + 1 after exactly N |
| `RunClient.RunByLog` | cmd/lanturn-phase2/main.go:205-236 | A whole run by its log: each session uses what the pick answers after the events of the sessions before it, an address available by that log; all sessions are served, or the first that is not finds every address unavailable and is the one named in the error |
| `RunClient.LiveFleet` | cmd/lanturn-phase2/main.go:205-236 | If some attempt of every session succeeds, all sessions are served for any draws and clock readings |
| `Demuxer.StepKeepsInv` | cmd/lanturn-phase2/main.go:988-1040 | Every step of reader, consumers and teardown keeps the demuxer invariant |
| `Demuxer.OneSessionPerAddress` | cmd/lanturn-phase2/main.go:998-1014 | At most one queued-or-live session per source address, and it stands in one place only |
| `DemuxerTheorems.OpenSession` | cmd/lanturn-phase2/main.go:988-1027 | In every reachable state an open session stands in one place and owns an open channel nobody shares; consumed and buffered packets are those offered while fewer than 64 were buffered, headed by firstPkt; everything received from the address since was offered, but for the packet in hand |
| `DemuxerTheorems.EndClosesOwn` | cmd/lanturn-phase2/main.go:1029-1033 | endSession closes exactly the channel its session was given, which was open until then |
| `DemuxerTheorems.ClosedChannel` | cmd/lanturn-phase2/main.go:998-1006 | A closed channel still holds an in-order part of its address's packets |
| `DemuxerTheorems.ClosedExactly` | cmd/lanturn-phase2/main.go:986-1040 | Over every run the demuxer is closed exactly after Close or a failed read, and its reader stops exactly by that or by giving up, only when closed |
| `DemuxerTheorems.CrashExactly` | cmd/lanturn-phase2/main.go:988-1033 | A run crashes if and only if its last step is the reader's send after a session ended between the lookup of its channel and the send, whatever came in between, or the taking of a session that a zero-length datagram opened (its first byte is printed at line 395); so no channel is ever closed twice |
| `DemuxerTheorems.RaceStays` | cmd/lanturn-phase2/main.go:998-1032 | Once that race has happened the reader holds the closed channel through every later step until the program crashes |
| `DemuxerTheorems.SessionsInOrder` | cmd/lanturn-phase2/main.go:991-1027 | The n-th session that NextSession returns is the n-th one opened |
| `DemuxerTheorems.CrashIsReachable` | cmd/lanturn-phase2/main.go:998-1032 | A concrete run with the race, for any first packet that is not empty and any second one |
| `DemuxerTheorems.EmptyCrashIsReachable` | cmd/lanturn-phase2/main.go:391-395 | A concrete run that takes an empty first packet |
| `DemuxerObject.EgressDemuxer.Lookup` | cmd/lanturn-phase2/main.go:991-1011 | The map lookup, or the new stored channel with its first packet, is the Receive step |
| `DemuxerObject.EgressDemuxer.TrySend` | cmd/lanturn-phase2/main.go:999-1006 | The non-blocking send is the Deliver step: it drops on 64 buffered and crashes exactly on a closed channel |
| `DemuxerObject.EgressDemuxer.Announce` | cmd/lanturn-phase2/main.go:1012-1016 | The session event is queued when fewer than four wait; after Close the reader may stop instead, and must when four wait |
| `DemuxerObject.EgressDemuxer.NextSession` | cmd/lanturn-phase2/main.go:1020-1027 | Sessions come out in the order they were queued; after Close a call may return none although some wait; the caller's print of the first byte (line 395) crashes exactly on an empty first packet |
| `DemuxerObject.EgressDemuxer.EndSession` | cmd/lanturn-phase2/main.go:1029-1033 | Removes the address and closes exactly the session's own, still open, channel |
| `Mimicry.StreamWithMimicry` | cmd/lanturn-phase3/main.go:777-911 | The streaming loop computes the run of the packet machine up to the first failed send: packets, reports, counters and average interval |
| `Mimicry.Speech` | cmd/lanturn-phase3/main.go:808-821 | The DTX state flips as drawn, only for profiles with DTX |
| `Mimicry.SpeechOdds` | cmd/lanturn-phase3/main.go:808-821 | Of the hundred residues of a due draw 30 end speech and 70 end silence |
| `Mimicry.KeyframeSpacing` | cmd/lanturn-phase3/main.go:793-844 | The first packet of a video stream is a keyframe, and consecutive keyframes are separated by exactly the drawn budget |
| `Mimicry.KeyframeCount` | cmd/lanturn-phase3/main.go:793-844 | The counter is the number K of keyframes among the N >= 1 packets sent, and (K-1)(lo+1) <= N-1 and N <= K(hi+1) |
| `Mimicry.SizeTellsKeyframe` | cmd/lanturn-phase3/main.go:675-710 | For the three video profiles packet size alone identifies keyframes |
| `Mimicry.HeadersOf` | cmd/lanturn-phase3/main.go:803-874 | Packet k has sequence number seq0 + k mod 2^16 and timestamp ts0 + k * increment mod 2^32 |
| `Mimicry.TimestampsRepeat` | cmd/lanturn-phase3/main.go:803-874 | For each of the four profiles two packets share a timestamp exactly when they are a multiple of the period apart |
| `Mimicry.PacingBounds` | cmd/lanturn-phase3/main.go:898-905 | For every profile the time slept is that of its speech packets at the active rate and of its quiet ones at the DTX rate, up to 1.5 ms per packet, and every packet's size lies in the range of its kind |
| `Mimicry.OpusNumbers` | cmd/lanturn-phase3/main.go:663-674 | Opus: 20 ms and 110 to 170 bytes per speech packet, 1 s and 5 to 12 bytes per quiet one |
| `Mimicry.VideoProfiles` | cmd/lanturn-phase3/main.go:676-713 | The three video profiles: interval, sizes and keyframe spacing in numbers |
| `Mimicry.ProfileDraws` | cmd/lanturn-phase3/main.go:663-713 | The exact size and budget each profile makes of a random number |
| `Mimicry.JitterReaches` | cmd/lanturn-phase3/main.go:899-905 | The jitter takes every microsecond from -1500 to 1500 and the sleep is never negative |
| `Mimicry.Statistics` | cmd/lanturn-phase3/main.go:868-911 | The statistics count the packets, reports and bytes sent, after a failed send too; the average is total sleep over packets |
| `Mimicry.AverageInterval` | cmd/lanturn-phase3/main.go:898-911 | Without DTX the reported average interval is within 1.5 ms of the nominal one, after a failed send too |
| `Mimicry.Reports` | cmd/lanturn-phase3/main.go:878-896 | Each RTCP report counts the packets and encrypted bytes sent before it modulo 2^32, and all of them carry the first packet's timestamp |
| `Mimicry.FailedSend` | cmd/lanturn-phase3/main.go:840-871 | A failed send keeps what the packets before it established; it adds one to the keyframe counter and to the state-change counter exactly when the packet built in vain was a keyframe or drew the speech state |
| `Mimicry.StateChanges` | cmd/lanturn-phase3/main.go:808-821 | The state-change counter counts the draws of the speech machine, which bound the real changes |
| `Mimicry.ChangesExactlyWhenAllFlip` | cmd/lanturn-phase3/main.go:808-821 | The counter equals the number of real changes if and only if every draw of the run changed the state |
| `Mimicry.CountsWithoutChange` | cmd/lanturn-phase3/main.go:808-821 | A concrete run that counts one change and has none |
| `Mimicry.Sample` | cmd/lanturn-phase3/main.go:633-638 | A drawn size lies in its range |
| `Mimicry.SampleReaches` | cmd/lanturn-phase3/main.go:633-638 | Every size of the range is drawn by some random number |

## Left out

- Sockets, TLS dialling, DTLS handshakes and key export, the TURN server, covert-dtls hooks, command lines, logging: I/O or library code.
- Cryptography, and RTP marshalling inside the SRTP pair: parameters, as said above.
- Randomness distributions, `activeFrac`, the NTP fraction and real wall-clock timing: floating point or physical time.
- The RTP marker bit and the NTP time of reports: they change no state that the theorems are about.
- Packet loss and reordering on the relay: the end-to-end theorems assume that the sender's packets that arrived are the first ones sent, each once and in order.
- Read deadlines: `bytesPipe` stores one and never consults it; those of the mux consumers only make a read return early.
- The 4096-byte buffers of the mux reader and the receive loop: what the mux is given is what its read returned, and the media packets are far smaller, so cutting them again is not modelled.
- The mux reader's read error: it closes the mux and stops, which in the machine is Close with no later Arrive.
- Allocate's reply handling, `splitSRTPKeys`, `DecodeErrorCode`, `selectProfile`, the XOR address pair, phase 0 and phase 1: easy, or repeated elsewhere; XOR addresses are arbitrary bytes in the requests.
- Go's memory model: shared fields change in atomic steps, and a channel is a number indexing a sequence; in the demuxer a lookup miss, the store and the first push are one step because only the reader stores. endSession's LoadAndDelete and close are one step, End: a send between the two reaches the still open channel and could as well have come before both. NextSession's receive and the print of its first byte are one step, too.
- Fleet endpoints: values in a sequence rather than references, which never leave the selector; subtraction of times does not saturate.
- ChunkerConn.TxLoop.Tick: the loop test that ends the drain and the send are one step, because writes only append to the queue.
- RunClient.RunClient: a negative session or retry count behaves as zero and is not separate.
- StunTheorems.SignedVerifies: assumes the caller added no MESSAGE-INTEGRITY of its own; IntegrityVerdict says what happens if it did.
- Mimicry.StreamWithMimicry: the byte counter is unbounded where the code has 64 bits.
