# ChuMicro in Dafny

ChuMicro is a set of tick-driven libraries for microcontrollers. Bytes and interrupts arrive in arbitrary slices, and
the code has to behave as if it had seen the whole input at once. This project models the state machines that promise
this and proves that they do.

- **Resumable parsing.** `Resumable` states the pattern once: a step that looks at the unparsed bytes and either takes a
  prefix or waits; if later bytes cannot change an enabled step, the outcome does not depend on how the stream is cut.
  The MQTT, WebSocket and HTTP parsers are each given a whole-stream reference step of this kind, and their buffers and
  field-by-field states are proved to follow it.
- **MQTT** (`MqttWire`, `MqttDecoder`, `MqttMessages`, `MqttTx`): the remaining-length codec, PUBLISH encoding, the fixed
  receive window with compaction and oversized skipping, published messages and acknowledgements through it, and the
  transmit queue with partial sends, callback markers and PUBACK batches.
- **WebSocket** (`WsWire`, `WsLaws`, `WsParser`, `WsInbound`, `WsOutbound`, `WsSession`): frames, masking, the resumable
  parser, reassembly under a size cap, and the outbound queue that always has room for CLOSE.
- **HTTP** (`HttpWire`, `HttpEnds`, `HttpStaging`, `HttpParser`, `HttpClient`, `HttpFetch`, `HttpStream`, `HttpHead`,
  `HttpLaws`, `HttpBody`, `HttpExchange`, `HttpOverflow`): the client's incremental response parser with its staging buffer
  and receive loop, where responses end, the server's heads and in-place chunked framing, and the two sides joined.
- **Buttons** (`DebounceSpec`, `Debounce`, `CleanPresses`, `DebounceRuns`, `Button.dfy`, `ButtonPresses`): the ring filled by
  an interrupt handler that may run between any two steps of its consumer, the debouncer, and long presses, repeats and
  click counting.
- **MessagePack and the key-value store** (`MsgpackWire`, `Msgpack`, `MsgpackLaws`, `MsgpackKeys`, `MsgpackCoder`,
  `MsgpackDemand`, `KVStore`).
- **Runner and timing** (`Ticks.dfy`, `PollSet`): the wrapping tick, drift-free periods, and the poll set kept equal to
  what services want while descriptors are reused.

What a reference function means is said apart from it: in octets (`WsLaws`, `HttpLaws`, `MqttMessages`, `MsgpackLaws`,
`Utf8Laws`), in pin levels and button times (`CleanPresses`, `ButtonPresses`), in what a key finds (`MsgpackKeys`) and in
where a response may end (`HttpEnds`).

Conventions. A socket, a body source or an interrupt is a script of answers given to the method that consults it, so a
statement for all scripts is a statement for all environments. Times are unwrapped integers in the specifications; the
classes hold the wrapped ticks. What the code raises is a value: `Option`, a verdict, or an error datatype. Classes have
the fields of the Python classes; ghost fields record history (bytes received, frames queued, reports made) and the class
invariant ties the two.

Where the code differs from what one would expect of it, the code is followed and the difference is stated exactly:

- `MqttDecoder.StallBeyondHalf` shows that any window can fill up for good on an oversized prelude longer than half of
  it and one byte; `ReadNext` says exactly when that happens and `Pump` that nothing else can stall it. The bound
  proved (windows of 12 bytes or more, preludes up to half and one) is a little wider than one of half a window.
- `WsInbound.EscapeExample` shows a message whose dropped first fragment is over the cap and whose tail is delivered as if
  it were the message; `OutcomeIsExpectedIff` says exactly which messages are affected. A later test of the payload
  against the cap in the same branch can never succeed, because the parser has already dropped such payloads, and is not
  modelled.
- `MsgpackCoder.OneCallTooMany` shows that decoding can take one call more than there are bytes; `UnpackInPlace` says
  exactly when.
- `KVStore.CommitsDiffer` shows a store on which `commit_if_changed` and `commit` differ; `CommitsAgreeIff` says exactly
  when they do.
- `HttpOverflow.DroppedYetDone` shows a response parser whose staging buffer overflowed, which a feeder that respects
  `body_free()` never causes, leave its ERROR state again and end in DONE with the body missing. `HttpStaging` says
  from the state before a feed and its bytes which feeds overflow and which of those leave the parser in ERROR.
- `HttpHead.OverriddenFraming` shows a streamed response whose head does not announce its framing, because the
  application's fields replace the server's; `FramingAnnouncesIff` says exactly which fields do that.
- `DebounceRuns.OverflowMovesTheStamp` shows a press that is not reported as it happened because the ring was full;
  `Watch` says how many pulses the ring can take.

## Model

| member | source | states |
|---|---|---|
| Resumable.SegmentationInvariance | chumicro_requests/_wire.py:480-534 | For any step that later bytes cannot change, feeding a stream in chunks cut anywhere leaves the same state, rest and output as running over it whole; every parser below is shown to be such a step |
| Resumable.RunResumes | chumicro_mqtt/_wire.py:386-434 | Stopping after a first part and resuming with the rest equals one run over both |
| Resumable.RunPrefix | chumicro_mqtt/_wire.py:386-434 | What is read of a beginning of a stream is a prefix of what is read of the whole |
| MqttWire.VarlenRoundTrip | chumicro_mqtt/_wire.py:55-105 | Decoding an encoded remaining length, whatever follows it, gives the value and the number of bytes used, for every value the field can hold |
| MqttWire.PackVarlen | chumicro_mqtt/_wire.py:55-72 | The digit loop produces the reference encoding, and refuses exactly the values outside 0..268435455 |
| MqttWire.UnpackVarlen | chumicro_mqtt/_wire.py:75-105 | The decoding loop over the buffer agrees with the reference on short, overlong and complete fields |
| MqttWire.NextPacketStable | chumicro_mqtt/_wire.py:386-434 | Once the bytes at hand settle what the next packet is, further bytes do not change it |
| MqttWire.PublishRoundTrip | chumicro_mqtt/_wire.py:215-244 | One encoded PUBLISH is read back as itself, or as one oversized event with its own topic, QoS, identifier and length, leaving exactly what follows it |
| MqttMessages.VarlenOctets | chumicro_mqtt/_wire.py:55-105 | The remaining length in octets: seven binary digits each, the lowest first, the top bit set on all but the last |
| MqttMessages.PublishOctets | chumicro_mqtt/_wire.py:215-244 | A short PUBLISH octet for octet: type with QoS and retain bit, length, topic behind its length high octet first, identifier likewise, payload |
| MqttMessages.AckRoundTrip | chumicro_mqtt/_wire.py:449-527 | CONNACK, PUBACK, SUBACK, UNSUBACK and PINGRESP, written octet for octet as a broker sends them, read back as their flags, codes and identifiers, leaving exactly what follows (sections 3.2, 3.4, 3.9, 3.11 and 3.13 of MQTT 3.1.1) |
| MqttMessages.RefusedPackets | chumicro_mqtt/_wire.py:449-527 | Of the packets the window can hold, exactly those are refused that have a wrong length for their kind, a kind no broker sends, a topic or identifier that does not fit or a topic that is not text; and with which exception |
| MqttMessages.RefusedOversized | chumicro_mqtt/_wire.py:529-591 | Of those it cannot hold, exactly all but publishes and publishes that show an ill topic; the others are skipped to their end |
| MqttMessages.OverlongRefused | chumicro_mqtt/_wire.py:75-105 | A length that would need a fifth octet is refused as soon as four have been seen, and not before |
| MqttMessages.StreamRoundTrip | chumicro_mqtt/_wire.py:386-515 | Any list of published messages and acknowledgements, each in the octets of the standard, reads back message for message, boundaries aligned across oversized ones |
| MqttWire.PackPublish | chumicro_mqtt/_wire.py:215-244 | The encoder appends exactly the reference bytes, and refuses QoS 2, a missing identifier and out-of-range sizes |
| MqttDecoder.PacketDecoder.Room | chumicro_mqtt/_wire.py:369-374 | The free end of the window; while skipping, no more than is left to skip |
| MqttDecoder.PacketDecoder.Advance | chumicro_mqtt/_wire.py:376-384 | Received bytes join the unread ones; while an oversized packet is skipped only the count moves |
| MqttDecoder.PacketDecoder.ReadNext | chumicro_mqtt/_wire.py:386-434 | One read is what the whole-stream parser says of the unread bytes; and when nothing is ready the window is full if and only if it was full before and holds an incomplete oversized prelude |
| MqttDecoder.PacketDecoder.ReadBody | chumicro_mqtt/_wire.py:423-434 | A packet that fits is parsed in place and consumed, or waited for with room made by compacting |
| MqttDecoder.PacketDecoder.Consume | chumicro_mqtt/_wire.py:436-440 | Unread bytes shrink from the front, and the window slides exactly when half of it is behind |
| MqttDecoder.PacketDecoder.Compact | chumicro_mqtt/_wire.py:442-447 | Sliding keeps the unread bytes and empties the space before them |
| MqttDecoder.PacketDecoder.EnterDrainPath | chumicro_mqtt/_wire.py:529-578 | An oversized packet is refused unless it is a PUBLISH, waits for its prelude, and then turns into a skip with the event already known |
| MqttDecoder.PacketDecoder.FinishOversized | chumicro_mqtt/_wire.py:593-611 | The event is reported when, and only when, the last skipped byte has gone by |
| MqttDecoder.ReadAll | chumicro_mqtt/_wire.py:386-434 | Reading until nothing is ready yields exactly the packets the whole-stream parser finds, and stops at the same fault |
| MqttDecoder.NoStall | chumicro_mqtt/_wire.py:369-447 | A window more than half full of unread bytes already holds any prelude of at most half a window and one byte |
| MqttDecoder.Pump | chumicro_mqtt/_wire.py:365-611 | Over any byte stream and any schedule of receives, the packets emitted are those of the whole-stream parser on the bytes received; no receive is wasted until the window stalls on a prelude, which it never does while preludes stay within the bound |
| MqttMessages.ModestProgresses | chumicro_mqtt/_wire.py:215-611 | Messages that fit the window, or show their topic in half of it and one byte, or cannot show it at all, never stall it |
| MqttMessages.Transfer | chumicro_mqtt/_wire.py:215-611 | Published messages and acknowledgements, sliced arbitrarily and received through the window: the events are those of the bytes taken, in order; and with modest messages every one has arrived once the socket has offered something often enough |
| MqttDecoder.StallBeyondHalf | chumicro_mqtt/_wire.py:561-562 | The bound is sharp: in every window, for every prelude from half of it and two bytes up that a topic can make, small packets and an oversized PUBLISH with that prelude leave the window full with nothing to read |
| MqttTx.Transmitter.EnqueueUser | chumicro_mqtt/client.py:992-1002 | All items or none, within the application's share of the queue; a refusal changes nothing |
| MqttTx.Transmitter.EnqueueInternal | chumicro_mqtt/client.py:1004-1013 | Protocol packets are refused only at the hard cap |
| MqttTx.Transmitter.ReadInbound | chumicro_mqtt/client.py:1021-1078 | The tick's PUBACKs joined are queued, in front, unless there are none, one batch is queued or a packet is partly sent; at the hard cap the session fails |
| MqttTx.Transmitter.Drain | chumicro_mqtt/client.py:920-955 | What the socket accepts, which entries leave the queue, which callbacks run and whether the session survives are those of the reference; bytes are accepted whenever something is to be sent and the socket takes one; no callback is left at the head behind a finished packet |
| MqttTx.CallbacksFirst | chumicro_mqtt/client.py:934-962 | Callbacks at the head of the queue run before anything is offered to the socket |
| MqttTx.OnePacket | chumicro_mqtt/client.py:934-962 | One packet is then offered: what is accepted is on the wire, the rest waits as the partial packet, and a packet that went out whole has its callbacks run in the same tick; nothing else is sent |
| MqttTx.BatchMakesWay | chumicro_mqtt/client.py:934-962 | A PUBACK batch that goes out whole makes way for the packet behind it in the same tick; one that does not stays alone |
| MqttTx.PartialGoesOn | chumicro_mqtt/client.py:920-933 | A partly sent packet goes on before anything else and alone |
| MqttTx.Transmitter.FireMarkers | chumicro_mqtt/client.py:973-983 | With no packet partly sent, exactly the callbacks at the head of the queue fire, in order |
| MqttTx.CallbackAfterPacket | chumicro_mqtt/client.py:973-983 | Behind every fired callback, all packets enqueued before it are on the wire to their last byte |
| MqttTx.Connection | chumicro_mqtt/client.py:920-1077 | Over any run: accepted bytes are whole packets back to back and a beginning of one more; without PUBACK batches those packets are, in order, the packets of the entries the application and the protocol had accepted and that left the queue; every batch is one tick's PUBACKs joined; callbacks follow their packets' last bytes; the queue keeps its caps |
| MqttTx.PacketIds.Allocate | chumicro_mqtt/client.py:908-918 | The first identifier in 1..65535 that is not in flight, going round from the one after the last; failure means all are in flight |
| Xor.XorByteTwice | chumicro_websockets/_wire.py:887-890 | Masking a byte twice with the same key byte gives the byte back |
| Xor.XorByteDigits | chumicro_websockets/_wire.py:697-700 | Every binary digit of a masked byte is set if and only if the digits of the byte and of the key byte differ |
| Xor.MaskedTwice | chumicro_websockets/_wire.py:887-890 | Masking a payload twice with the same key is the identity (section 5.3 of RFC 6455) |
| WsLaws.MaskedHello | chumicro_websockets/_wire.py:670-893 | The masked text frame of section 5.7 of RFC 6455, octet for octet, is what the encoder writes and reads back as its text |
| WsLaws.OtherFrames | chumicro_websockets/_wire.py:670-893 | The unmasked frames of section 5.7 of RFC 6455 read as a text, its two fragments and a ping |
| WsLaws.HeadOctets | chumicro_websockets/_wire.py:837-893 | The octets in front of any payload: FIN bit and opcode, mask bit and length, the longer lengths high octet first, the key |
| WsLaws.RefusedHeads | chumicro_websockets/_wire.py:754-805 | A frame is malformed if and only if a reserved bit is set, the opcode is reserved, or a control frame is fragmented or longer than 125 bytes |
| WsWire.NextFrameStable | chumicro_websockets/_wire.py:670-752 | What the bytes at hand settle about the next frame, later bytes do not change |
| WsWire.FrameRoundTrip | chumicro_websockets/_wire.py:837-893 | One encoded frame, masked or not, reads back with its flags, opcode and payload, or oversized with its true length, and ends where the encoding ends (section 5.2 of RFC 6455) |
| WsWire.FrameStreamRoundTrip | chumicro_websockets/_wire.py:837-893 | A stream of legal frames reads back frame for frame, alignment kept across oversized ones |
| WsWire.PackFrame | chumicro_websockets/_wire.py:837-893 | The encoder produces exactly the reference bytes and refuses long control payloads and bad keys |
| WsWire.MaskFrom | chumicro_websockets/_wire.py:882-890 | The in-place loop leaves the masked payload behind the head and touches nothing else |
| WsParser.FrameParser.Feed | chumicro_websockets/_wire.py:670-752 | Bytes are taken until a frame is ready, the frame is malformed or none are left; the parser's fields always describe the bytes seen since the frame began |
| WsParser.FrameParser.TakePayload | chumicro_websockets/_wire.py:670-752 | Payload bytes are unmasked in place at the running offset, so the kept part is the unmasked part so far |
| WsParser.FrameParser.DispatchHeader | chumicro_websockets/_wire.py:754-784 | The first two bytes either fail as the reserved bits and opcodes demand or fix the next field to read |
| WsParser.FrameParser.AfterLength | chumicro_websockets/_wire.py:786-805 | A long control frame fails; a payload over the cap is marked for skipping |
| WsParser.FrameParser.AfterMask | chumicro_websockets/_wire.py:807-824 | The payload is skipped, kept in a buffer large enough, or found empty and the frame ready |
| WsParser.FrameParser.Reset | chumicro_websockets/_wire.py:654-668 | After a frame the parser stands as at a frame boundary again |
| WsParser.FeedChunk | chumicro_websockets/_session.py:376-402 | The feed and reset loop over one chunk reports exactly the frames that complete in it |
| WsParser.FeedAll | chumicro_websockets/_session.py:376-402 | However a connection's bytes are cut, the frames are those of the whole stream, and it fails exactly when the stream is malformed |
| WsParser.Exchange | chumicro_websockets/_wire.py:670-893 | Encoded frames cut anywhere come back as the same list, each over the cap flagged oversized with its true length |
| WsInbound.Inbound.HandleData | chumicro_websockets/_session.py:430-489 | One data frame extends, completes or refuses the message being assembled, with the exact outcome and the fragments held |
| WsInbound.RefusedIff | chumicro_websockets/_session.py:430-489 | A data frame is refused if and only if it continues no message, starts one inside another, or is the 65th empty fragment in a row with more to come |
| WsInbound.OutcomeIsExpectedIff | chumicro_websockets/_session.py:462-475 | A complete message has the right outcome (its concatenation, or one report of its length) if and only if it does not open with a fragment over the cap and close with one within it |
| WsInbound.WithinCapDoesNotEscape | chumicro_websockets/_session.py:462-475 | No message whose frames are all within the cap is affected |
| WsInbound.EscapeExample | chumicro_websockets/_session.py:462-475 | With a cap of 4, a dropped first fragment of 5 bytes lets the 1-byte tail pass as the whole message |
| WsInbound.Receive | chumicro_websockets/_session.py:404-538 | Over any legal fragmented sequence with control frames interleaved, the outcomes are what is said of each message, and the right ones if and only if no message escapes the cap, in particular when every frame is within it (section 5.4 of RFC 6455) |
| WsSession.ReceiveStream | chumicro_websockets/_session.py:376-538 | From encoded fragments, cut anywhere, to the delivered messages: exactly the concatenations, or one true length for a message over the cap, if and only if no message escapes the cap |
| WsSession.ReceiveMessages | chumicro_websockets/_session.py:376-538 | Text and binary messages sent in fragments and cut anywhere on the way are each heard once, whole, in order and under their own opcode; a text that is not UTF-8 is refused and one over the cap reported with its length |
| Utf8Laws.ValidIff | chumicro_websockets/_wire.py:963-980 | Octets pass the UTF-8 test if and only if they encode a sequence of Unicode scalar values (section 3 of RFC 3629) |
| WsOutbound.Outbound.SendUser | chumicro_websockets/_session.py:237-280 | An application frame is queued only while open and below the application's limit; otherwise nothing changes |
| WsOutbound.Outbound.SendPong | chumicro_websockets/_session.py:348-356 | A PONG is dropped when only the slot kept for CLOSE is left |
| WsOutbound.Outbound.SendClose | chumicro_websockets/_session.py:621-641 | Beginning to close always finds room for its CLOSE, and happens once |
| WsOutbound.Outbound.Drain | chumicro_websockets/_session.py:569-600 | Accepted bytes continue the queued frames in order, within the tick's budget |
| WsOutbound.WillingSocket | chumicro_websockets/_session.py:569-600 | Over a socket that takes something at every call, a tick sends its whole budget, or everything there is, in order |
| WsOutbound.Converse | chumicro_websockets/_session.py:339-641 | Over any run: the queued frames are those the events had accepted, the wire is a prefix of them, the queue keeps its hard cap, closing queues exactly one CLOSE and no data after it (section 5.5.1 of RFC 6455) |
| HttpWire.ParseStepStable | chumicro_requests/_wire.py:527-760 | A line, a body byte or a chunk end that can be taken is the same whatever bytes follow |
| HttpWire.BytesAtOnce | chumicro_requests/_wire.py:720-780 | Taking body bytes one by one and taking them at once lead to the same state and output |
| HttpWire.OverCapFails | chumicro_requests/_wire.py:774-780 | A read-to-close body past the cap ends in ERROR wherever in a feed the cap was passed |
| HttpEnds.RunFramed | chumicro_requests/_wire.py:603-780 | However far a response is read, the fields say how its body ends: by chunks, by the announced length, of which the bytes read and the bytes left are the sum, or by the end of the connection |
| HttpEnds.CutShort | chumicro_requests/_wire.py:500-525 | A proper beginning of a whole response is neither over nor refused, and is an error once the connection is closed |
| HttpEnds.EndOfStream | chumicro_requests/_wire.py:500-525 | When the connection is closed a response is complete if and only if it was over already, or its fields announced neither a transfer coding nor a length; otherwise it is an error, in particular whenever it was cut short |
| HttpEnds.ShortOfLength | chumicro_requests/_wire.py:500-525 | Any head that announces a length, followed by fewer bytes, is an error once the connection is closed |
| HttpLaws.ShortOfChunks | chumicro_requests/_wire.py:500-525 | Any head that announces chunks, followed by a proper beginning of a chunked body with its terminator, is not complete once the connection is closed |
| HttpLaws.AnyHeadReads | chumicro_requests/_wire.py:553-601 | Any head is read as its status, reason and fields, whatever the body, also when fields are repeated |
| HttpLaws.GatheredValue | chumicro_requests/_wire.py:277-288 | A field given several times, in whatever case, has all its values, joined by a comma and a space in the order they came |
| HttpLaws.FieldLineAdds | chumicro_requests/_wire.py:582-601 | A field line with any white space around the value adds exactly the value under the name |
| HttpLaws.SameSpellingIff | chumicro_requests/_wire.py:227-288 | Two field names are the same if and only if they are spelled alike up to the case of ASCII letters |
| HttpLaws.InterimSkipped | chumicro_requests/_wire.py:606-612 | An interim response leaves no trace: what follows it is read as if it had come first |
| HttpLaws.BodilessReads | chumicro_requests/_wire.py:613-616 | A 204 or 304 response is over with its head, whatever its fields announce |
| HttpLaws.ReadToClose | chumicro_requests/_wire.py:664-667 | With neither a transfer coding nor a length announced, the body is everything up to the end of the connection, or fails past the cap |
| HttpLaws.StatusRefusedIff | chumicro_requests/_wire.py:553-580 | A status line is refused if and only if it is not ASCII, its first word does not begin with HTTP/ or its second is no number; otherwise its words are kept |
| HttpLaws.FieldRefusedIff | chumicro_requests/_wire.py:582-601 | A field line is refused if and only if it is not ASCII, has no colon or begins with one |
| HttpLaws.FramingRefusedIff | chumicro_requests/_wire.py:617-667 | The body's framing is refused if and only if a transfer coding other than chunked is announced, or without one a length that is no number from 0 to the cap |
| HttpLaws.SizeRefusedIff | chumicro_requests/_wire.py:678-718 | A chunk size, with white space around it and an extension behind it, is refused if and only if it is not ASCII, empty, no number, negative or past the cap |
| HttpLaws.ChunkEndRefusedIff | chumicro_requests/_wire.py:720-747 | The data of a chunk is followed by CRLF or the response fails |
| HttpLaws.TrailerSkipped | chumicro_requests/_wire.py:749-760 | Every line behind the last chunk is skipped; the first blank one ends the response |
| HttpLaws.LineRefused | chumicro_requests/_wire.py:536-551 | A refused line ends the reading in ERROR, whatever follows |
| HttpParser.ResponseParser.Feed | chumicro_requests/_wire.py:480-498 | A feed keeps the parser on course with the whole-stream reading; it is refused exactly when the unparsed bytes would pass their cap; it overflows the staging buffer, and leaves the parser stuck in ERROR, exactly when the state before it and its bytes say so; and a streamed feed of at most body_free() never overflows |
| HttpParser.ResponseParser.Agrees | chumicro_requests/_wire.py:480-812 | Between feeds the fields are the whole-stream reading of all bytes received, and the bytes handed out followed by those staged are the body decoded so far |
| HttpParser.ResponseParser.ReadBodyInto | chumicro_requests/_wire.py:457-473 | Reads hand out the oldest staged bytes, in order and without loss |
| HttpParser.ResponseParser.AbsorbChunk | chumicro_requests/_wire.py:782-812 | Body bytes are appended, the buffer growing by doubling up to the cap when the body is not streamed; a streamed piece that does not fit is dropped whole and flagged |
| HttpParser.ResponseParser.Consume | chumicro_requests/_wire.py:436-442 | Parsed bytes are dropped from the front, whether or not the buffer is compacted |
| HttpParser.ResponseParser.TryStatusLine | chumicro_requests/_wire.py:553-580 | A complete status line is taken as the reference takes it; otherwise nothing moves |
| HttpParser.ResponseParser.TryHeaders | chumicro_requests/_wire.py:582-676 | A header line is taken, or the blank one enters the body with the bytes that came along |
| HttpParser.ResponseParser.EnterBodyState | chumicro_requests/_wire.py:603-667 | Interim responses start over, bodiless ones end, and the framing is chosen as the fields announce, with room for a buffered body |
| HttpParser.ResponseParser.TryChunkSize | chumicro_requests/_wire.py:678-718 | A size line is taken as the reference takes it, within the cap |
| HttpParser.ResponseParser.TryChunkData | chumicro_requests/_wire.py:720-747 | Chunk data and its end are taken in as large pieces as are at hand, without leaving the reference's course, even when a piece is dropped |
| HttpParser.ResponseParser.TryChunkTrailer | chumicro_requests/_wire.py:749-760 | Trailer lines are skipped up to the blank one |
| HttpParser.ResponseParser.AbsorbBodyBytes | chumicro_requests/_wire.py:762-780 | Bytes past an announced length are dropped, a read-to-close body fails past its cap, everything else is kept in order or dropped for want of room |
| HttpParser.ResponseParser.Advance | chumicro_requests/_wire.py:527-534 | Steps are taken until none is left, and end |
| HttpParser.ResponseParser.FeedEof | chumicro_requests/_wire.py:500-525 | The end of the connection completes a response if and only if it is over already or its fields announced neither a transfer coding nor a length; any response cut short becomes an error |
| HttpParser.ResponseParser.EndsInErrorIff | chumicro_requests/_wire.py:480-812 | A parser ends in ERROR if and only if the whole-stream reading does or it is stuck; when it is not stuck it stands where that reading ends, whatever was dropped |
| HttpStaging.RoomKeeps | chumicro_requests/_wire.py:720-812 | Bytes of which no more can be body than there is room for are never dropped, from any state |
| HttpStaging.WithinChunk | chumicro_requests/_wire.py:720-747 | Bytes that do not show the end of the current chunk's line: more data than room, and the parser is stuck in ERROR |
| HttpStaging.AcrossChunk | chumicro_requests/_wire.py:720-747 | Bytes that show it: the data is kept or dropped, and what follows alone decides whether the parser is stuck |
| HttpOverflow.WholeBodyStages | chumicro_requests/_wire.py:678-812 | A whole chunked body at hand overflows the staging buffer if and only if it is larger than the room, and never leaves the parser stuck |
| HttpOverflow.FeedWhole | chumicro_requests/_wire.py:480-812 | A head and then a whole chunked body in one feed: the parser ends in DONE, and it overflowed if and only if the body is larger than the buffer |
| HttpOverflow.DroppedYetDone | chumicro_requests/_wire.py:720-812 | One response: 48 bytes of staging buffer, a chunk of 64, the whole body dropped, and DONE |
| HttpClient.Feeding | chumicro_requests/_wire.py:480-525 | A buffered response in any segmentation: refused if and only if some feed passes the cap on unparsed bytes, and otherwise the state, status, fields and body of the whole stream; a body is complete only as its fields announced it, and when the connection is closed any response cut short is an error |
| HttpClient.FirstWithinCapIff | chumicro_requests/_wire.py:480-498 | Before a line is complete, what is fed may be as long as the header cap and no longer |
| HttpFetch.DriveRecv | chumicro_requests/client.py:726-758 | One tick's receive loop is the reference's: it feeds within the budget, the scratch buffer and the staging room, and completes or fails as the received bytes say |
| HttpFetch.TickFacts | chumicro_requests/client.py:726-758 | One tick loses no byte, ends as the bytes say, and falls short of its budget only over a socket with nothing to offer, the end of the bytes or a full staging buffer |
| HttpFetch.FetchedFacts | chumicro_requests/client.py:726-758 | The same over any turns: the account of bytes, the verdict, and the budgets received |
| HttpFetch.Fetch | chumicro_requests/client.py:726-758 | Over any ticks and reads: the fetch is the fold of its turns; what was handed out begins the body the received bytes encode, the rest is staged, nothing overflows, the request completes exactly when those bytes say so and ends in a socket error only when the socket broke, with every byte before that received; when the peer closes a response cut short has failed, and one that completed is as long as its fields announced, or they announced nothing; one still pending has received everything, or its full budget at each tick but those when the socket had nothing or the staging buffer was full |
| HttpStream.HexLength | chumicro_http_server/streaming.py:45-50 | The digit count of a size |
| HttpStream.HexGrows | chumicro_http_server/streaming.py:79-88 | A larger size never has fewer digits, so the reserved slot fits every chunk's header |
| HttpStream.HexRoundTrip | chumicro_http_server/streaming.py:53-66 | Reading the digits gives the size back |
| HttpStream.WriteChunkHeader | chumicro_http_server/streaming.py:53-66 | The header written backwards ends flush with the data, spells the size and touches nothing behind it |
| HttpStream.ChunkDecodes | chumicro_http_server/streaming.py:131-140 | One chunk, read by the response parser, brings its data and leaves it ready for the next |
| HttpStream.ChunkedRoundTrip | chumicro_http_server/streaming.py:131-158 | The chunked coding with its terminator reads back as the source's bytes, whatever follows (section 7.1 of RFC 9112) |
| HttpBody.StreamState.Pull | chumicro_http_server/streaming.py:111-129 | Called only with nothing pending; the source's count becomes a framed piece, a stall, the end or an error, exactly as its value and the declared length demand, and the stream is left as the reference leaves it |
| HttpBody.StreamState.FrameChunk | chumicro_http_server/streaming.py:131-140 | The pending output is exactly the chunk coding of the data in the buffer |
| HttpBody.StreamState.FrameData | chumicro_http_server/streaming.py:131-151 | A piece is framed, or refused when it exceeds the declared length |
| HttpBody.StreamState.OnEof | chumicro_http_server/streaming.py:153-163 | The end adds the terminator, or is an error when the declared length was not reached |
| HttpBody.StreamState.AdvanceSent | chumicro_http_server/streaming.py:108-109 | Accepted bytes move from pending to sent |
| HttpBody.DriveStreamBody | chumicro_http_server/streaming.py:257-294 | A tick is the reference's: it sends what the socket takes of the pending output within its budget, pulls only when nothing is pending, and ends with the reference's verdict |
| HttpBody.TickedSound | chumicro_http_server/streaming.py:257-294 | What is on the wire and pending stays the framing of the pieces, no piece is lost or made up, and only a stream with everything sent is finished |
| HttpBody.TickProgresses | chumicro_http_server/streaming.py:257-294 | With a willing socket and source, a tick that does not finish sends its whole budget, or met a socket that takes nothing or a source that has nothing |
| HttpBody.ServedGivenUp | chumicro_http_server/streaming.py:111-163 | A response is given up only over a lost socket or a source that breaks its contract |
| HttpBody.ServedFinishes | chumicro_http_server/streaming.py:257-294 | With a willing socket and source the response is sent after one tick for every budget's worth of bytes and one for every time either had nothing |
| HttpHead.HeadReads | chumicro_http_server/server.py:371-386 | An encoded head reads back as its status, reason and fields, and the body starts where it ends |
| HttpHead.FramingAnnouncesIff | chumicro_http_server/server.py:371-386 | The head of a streamed response announces the framing its stream state uses if and only if the application's own fields, which replace the server's, leave it in place |
| HttpHead.OverriddenFraming | chumicro_http_server/server.py:779-785 | An application that sets Transfer-Encoding to identity on a chunked stream makes the head announce something else |
| HttpExchange.StreamedReads | chumicro_http_server/streaming.py:131-163 | Any streamed response, chunked or of declared length, reads as its status, reason, fields and exactly the source's bytes |
| HttpExchange.Serve | chumicro_http_server/streaming.py:69-163 | Over any source and any partial sends: refused exactly when the buffer cannot frame a chunk; otherwise what was sent is the fold of the ticks, a beginning of the framed pieces and all of them when finished; given up only over a lost socket or a misbehaving source, and finished in time with both to rely on |
| HttpExchange.Exchange | chumicro_http_server/streaming.py:257-294 | From the server's source to the client's response in any segmentation within the cap: done exactly when the fold of the server's ticks says so, in particular in time with a source and a socket to rely on, and then status, the server's and the application's fields and exactly the source's bytes |
| HttpExchange.Interrupted | chumicro_requests/_wire.py:500-525 | A streamed response of which the connection delivers any proper beginning, in the head or in the body, fed in any segmentation: an error at the end |
| DebounceSpec.SettledIsChangesOfLongRuns | chumicro_buttons/_adapters/mp.py:151-183 | The reference's reports are the changes of level among the runs that lasted settle_ms, and nothing else |
| DebounceSpec.FinalShape | chumicro_buttons/_adapters/mp.py:151-216 | The reference's reports alternate, pressed first, and are settle_ms apart |
| CleanPresses.SampleIsPressedIff | chumicro_buttons/_adapters/mp.py:70 | A sample counts as pressed if and only if the pin is low on an active-low key, or high on one that is not |
| CleanPresses.CleanReports | chumicro_buttons/_adapters/mp.py:151-216 | Of a pin that leaves its released level and returns to it, holding every level for settle_ms, the reference reports a press for every leaving and a release for every return, stamped with the tick of the edge |
| Debounce.MpButtonSource.CaptureEdge | chumicro_buttons/_adapters/mp.py:229-251 | The handler stores an edge if and only if the ring has a slot to spare, and flags an overflow otherwise, without disturbing what is unread |
| Debounce.MpButtonSource.NextEvent | chumicro_buttons/_adapters/mp.py:128-216 | With interrupts at any step: the next report of a key, or none, the ring drained and every key swept; it always ends |
| Debounce.MpButtonSource.Process | chumicro_buttons/_adapters/mp.py:158-183 | One edge updates believed, pending and the change time as the reference does, reporting a run that lasted |
| Debounce.MpButtonSource.Sweep | chumicro_buttons/_adapters/mp.py:202-216 | A level held for settle_ms by the poll's time is reported once |
| Debounce.MpButtonSource.Resync | chumicro_buttons/_adapters/mp.py:187-200 | After an overflow each key's pending level is that of its pin, unless the pin was struck again meanwhile |
| Debounce.MpButtonSource.Poll | chumicro_buttons/_adapters/mp.py:119-126 | The poll's time never goes back, nor does the clock fall behind it |
| Debounce.MpButtonSource.StrikeAll | chumicro_buttons/_adapters/mp.py:229-251 | Of the interrupts that strike with nothing drained in between the ring keeps the first ones, as many as it has room for, and overflows exactly when there are more |
| Debounce.MpButtonSource.RunRound | chumicro_buttons/_adapters/mp.py:119-251 | One poll with the interrupts around and during it: every edge that struck and its time, the time reached, and bounds on what the ring holds and whether it overflowed |
| DebounceRuns.ReferenceShape | chumicro_buttons/_adapters/mp.py:128-216 | What the reference makes of edges in time order alternates and is spaced |
| DebounceRuns.RoundTimes | chumicro_buttons/_adapters/mp.py:229-251 | When each interrupt of a round strikes: after all the delays up to its own, counted from the end of the round before or from the poll |
| DebounceRuns.Watch | chumicro_buttons/_adapters/mp.py:128-251 | Over any polls and interrupts: with no overflow and no round half a ring of ticks long, each key's events are a prefix of the reference's on the edges that struck, alternating and settle_ms apart, include every one due at the last poll, and are all of them once those edges are older than settle_ms; in pin levels: a key that starts released and is never struck reports nothing, and one pressed and released cleanly reports its presses and releases, each stamped with its edge, as soon as they are settle_ms old; the ring does not overflow when it has a slot for every pulse between two complete drains, which is exact when nothing strikes during a check; whatever happened, events alternate, pressed first, and carry the time of a captured edge, of a poll or of the start |
| DebounceRuns.OverflowMovesTheStamp | chumicro_buttons/_adapters/mp.py:187-251 | Two presses, a ring with room for one edge: the second key's press is not reported as it happened, although both are long settled |
| Buttons.Button.ApplyEdge | chumicro_buttons/core.py:215-239 | An edge changes the press as the reference does and counts a click exactly for a release of a press not seen held for click_ms |
| Buttons.Button.Advance | chumicro_buttons/core.py:241-293 | Each timed event fires if and only if its time has come; nothing fires before the nearest deadline, and what stays due is strictly later |
| Buttons.Button.NextDeadline | chumicro_buttons/core.py:175-200 | The tick of the nearest deadline in unwrapped time, or none; Drive asks for it after every check of a run, in the state the check leaves |
| Buttons.SilentBeforeNext | chumicro_buttons/core.py:175-293 | A look without edges before the nearest deadline reports nothing and changes nothing; after any look the nearest deadline lies ahead |
| Buttons.NextIsNeeded | chumicro_buttons/core.py:175-293 | A look at the nearest deadline is never in vain: it reports something, or finds the press too long for a click |
| Buttons.Drive | chumicro_buttons/core.py:136-293 | Over any run on time: every report is the reference's, the deadline returned after each check is the nearest, a check without edges before it fires nothing, and the click counts reported plus those pending are the click-qualified releases |
| ButtonPresses.HeldReports | chumicro_buttons/core.py:241-293 | While a button is held: the long press is reported by the first check at or after its time and by no other; a repeat by exactly those checks since whose predecessor a beat has passed, the beats starting after the delay and keeping their period however late the checks; clicks from before once the press is too long to be one |
| ButtonPresses.TapReports | chumicro_buttons/core.py:215-293 | A press and release between two checks is a click, and the series it ends is reported, with its count, by the first check at or after click_ms and by no other |
| ButtonPresses.ReleaseReports | chumicro_buttons/core.py:215-293 | A release after some checks is a click, reported likewise, unless one of those checks came click_ms or more after the press |
| MsgpackWire.HeadRoundTrip | chumicro_msgpack/_pure.py:53-130 | Every scalar, string, binary and container head is read back from its encoding, whatever follows |
| MsgpackLaws.IntegerOctets | chumicro_msgpack/_pure.py:53-84 | Integers from -2^31 to 2^32-1, and no others, are written, each in the octets of the shortest format of the MessagePack specification that holds it, high octet first |
| MsgpackLaws.OtherOctets | chumicro_msgpack/_pure.py:26-130 | The octets of every other format of the subset and the lengths they take |
| MsgpackLaws.AnyWidth | chumicro_msgpack/_pure.py:154-238 | A number or a container's count is read from any format that holds it, signed ones in two's complement |
| MsgpackLaws.AnyLength | chumicro_msgpack/_pure.py:154-238 | Texts and byte strings are read behind a length field of any width |
| MsgpackLaws.UnsupportedIff | chumicro_msgpack/_pure.py:154-238 | The first octets that are refused as unsupported, all of them |
| MsgpackWire.ReadsAreWritable | chumicro_msgpack/_pure.py:154-238 | Whatever head is read can be written, in no more bytes |
| Msgpack.EncodesIff | chumicro_msgpack/_pure.py:26-133 | A value is encoded if and only if it is in range and nested no deeper than the cap |
| MsgpackLaws.DepthIff | chumicro_msgpack/_pure.py:26-30 | Nesting of eight levels is packed and unpacked; nine are refused on either side |
| Msgpack.RoundTrip | chumicro_msgpack/_pure.py:26-283 | Decoding an encoding followed by any bytes, at any depth, gives the value and stops at the encoding's end |
| Msgpack.PutEncodes | chumicro_msgpack/_pure.py:271-283 | Storing a pair in a dict never costs more than the pair's encoding |
| Msgpack.PutKeys | chumicro_msgpack/_pure.py:271-283 | Storing under an equal key keeps the key's first spelling and place; a new key goes last |
| MsgpackKeys.PutFound | chumicro_msgpack/_pure.py:271-283 | After a pair is stored its key, however spelled, finds the value, and every other key what it found before |
| MsgpackKeys.KeyExamples | chumicro_msgpack/_pure.py:271-283 | True, 1 and 1.0 are one key, and so are False, 0 and both zeros; texts and byte strings are not numbers; NaN finds nothing |
| MsgpackKeys.RepeatedKeys | chumicro_msgpack/_pure.py:271-283 | Of a map with repeated keys, decoding keeps for each key the value that came last |
| Msgpack.Repacks | chumicro_msgpack/_pure.py:154-283 | Whatever decodes is a value the encoder takes at the same depth, into no more bytes |
| Msgpack.UnpackPack | chumicro_msgpack/_pure.py:286-327 | unpackb of packb is the identity on legal values |
| Msgpack.SelfDelimiting | chumicro_msgpack/_pure.py:26-133 | No encoding is the beginning of another |
| Msgpack.PackUnpack | chumicro_msgpack/_pure.py:286-327 | Whatever unpackb accepts packs into no more bytes and unpacks to the same value; the two depth caps agree |
| MsgpackCoder.EncodeInto | chumicro_msgpack/_pure.py:26-50 | The encoder appends exactly the reference encoding to the shared buffer, or refuses for the reference's reason |
| MsgpackCoder.PackNew | chumicro_msgpack/_pure.py:286-303 | packb as the encoder run on a new buffer |
| MsgpackCoder.DecodeAt | chumicro_msgpack/_pure.py:154-238 | The recursive decoder over offsets agrees with the reference and with the count of its calls |
| MsgpackCoder.DecodeArrayAt | chumicro_msgpack/_pure.py:260-268 | The element loop reads exactly the announced elements one after the other |
| MsgpackCoder.DecodeMapAt | chumicro_msgpack/_pure.py:271-283 | The pair loop builds the dict the reference builds and refuses containers as keys |
| MsgpackCoder.CallsBounded | chumicro_msgpack/_pure.py:154-283 | Decode calls never exceed the bytes taken, and those of a failure the bytes there are and one, with the exact condition for each bound to be reached |
| MsgpackCoder.UnpackInPlace | chumicro_msgpack/_pure.py:306-327 | unpackb ends in a value or a ValueError; it takes no more calls than there are bytes unless every byte is a whole value or head, and then one more if and only if the announced items outlast the bytes |
| MsgpackDemand.RunsOutIff | chumicro_msgpack/_pure.py:154-283 | Bytes that are each a whole value or head end too early if and only if what the containers announced, counted byte by byte with the depth cap and the keys refused, is still owed at their end |
| MsgpackCoder.OneCallTooMany | chumicro_msgpack/_pure.py:260-268 | Three bytes that take four calls |
| KVStore.CommitKeepsCoherence | chumicro_kvstore/core.py:135-167 | Commits keep a store corrupt exactly while its payload does not load, and equal to what the payload loads to whenever it is neither dirty nor corrupt |
| KVStore.CommitsAgreeIff | chumicro_kvstore/core.py:135-156 | commit_if_changed leaves the backend loading to the same dict as commit, except exactly for a clean store over a corrupt payload that commit could replace |
| KVStore.CommitsDiffer | chumicro_kvstore/core.py:135-167 | A store opened on the single byte C1: commit repairs the backend, commit_if_changed leaves it unreadable |
| KVStore.LoadPacked | chumicro_kvstore/core.py:108-133 | What a store packs loads back as the same dict |
| KVStore.WithoutFound | chumicro_kvstore/core.py:176-178 | A key that was removed finds nothing, every other key what it found before |
| KVStore.LastSaid | chumicro_kvstore/core.py:172-220 | Over any run, a key finds what the last operation that concerns it says |
| KVStore.Store.Reload | chumicro_kvstore/core.py:108-133 | A payload that loads replaces everything; one that does not changes nothing but the dirty flag |
| KVStore.Store.Commit | chumicro_kvstore/core.py:135-141 | The write happens if and only if the dict packs within the capacity, 0 being none; then the backend holds the packed dict; a failure changes nothing |
| KVStore.Store.CommitIfChanged | chumicro_kvstore/core.py:143-156 | Skips exactly a clean store and an unchanged payload, writes the packed dict otherwise; a failure changes nothing |
| KVStore.Store.SetItem | chumicro_kvstore/core.py:172-174 | The key finds the value from then on and every other key what it found before; the store is dirty |
| KVStore.Store.DelItem | chumicro_kvstore/core.py:176-178 | Removes the one entry the key selects, and no other; a missing key changes nothing |
| KVStore.Store.Pop | chumicro_kvstore/core.py:201-210 | Returns the entry's value or the default, removes that entry and no other, and marks the store dirty |
| KVStore.Store.Update | chumicro_kvstore/core.py:217-220 | Every key finds the last value given for it, and what it found before if none was; the store is dirty |
| KVStore.Session | chumicro_kvstore/core.py:91-220 | Over any run on any initial payload: the store is the fold of its operations over what construction read; a key finds what the last operation concerning it says; and a store that ends neither dirty nor corrupt, as after a commit that goes through, is what a new store on the same backend reads |
| PollSet.PollSet.Gather | chumicro_runner/core.py:476-509 | The wanted slots carry the union of this sweep's masks and its stamp, the others are as they were |
| PollSet.PollSet.Apply | chumicro_runner/core.py:511-523 | New slots are registered and changed ones modified; unchanged ones make no call |
| PollSet.PollSet.Drop | chumicro_runner/core.py:525-543 | The sockets no service wants leave the poll set, closed ones by their recorded descriptor |
| PollSet.PollSet.UnregisterDescriptor | chumicro_runner/core.py:545-563 | A descriptor that another slot holds by now is left alone |
| PollSet.PollSet.Sync | chumicro_runner/core.py:469-543 | After a sweep the registrations are the union of the masks wanted per socket, even when a descriptor changed hands; a sweep with unchanged wants makes no poller call |
| PollSet.PollSet.Wait | chumicro_runner/core.py:369-384 | A poller created late is given every slot |
| PollSet.Passes | chumicro_runner/core.py:369-563 | Over any passes with sockets opened, closed and descriptors reused, the poll object watches for an event on a descriptor if and only if some service of the last pass wants to hear of it there |
| Ticks.DiffUnwraps | chumicro_timing/ticks.py:60-68 | ticks_diff gives the true distance if and only if that lies in the half-ring |
| Ticks.AddUnwraps | chumicro_timing/ticks.py:49-57 | ticks_add moves the tick as unwrapped time moves, and refuses exactly a delta of half the ring or more |
| Timing.Deadline.Expired | chumicro_timing/deadline.py:13-15 | A deadline has expired if and only if true time has reached it |
| Timing.Deadline.Remaining | chumicro_timing/deadline.py:17-20 | The true time left, or 0 |
| Timing.NewRate | chumicro_timing/deadline.py:30-40 | A period outside the half-ring is refused; otherwise the first fire is one period away |
| Timing.Rate.Due | chumicro_timing/deadline.py:42-51 | Fires if and only if true time has reached the due time, which then moves by whole periods to within one period ahead |
| Timing.RunRate | chumicro_timing/deadline.py:27-51 | Over any checks less than half a ring late for the due time then standing, all due times are strictly increasing multiples of the period from the start |
| Timing.RunTask | chumicro_runner/core.py:316-332 | Over any ticks less than half a ring late for the due time then standing, a preserve_phase entry runs exactly when due and its due times stay whole periods from the first |
| Timing.Task.Tick | chumicro_runner/core.py:316-332 | A runner entry runs if and only if it is due; with preserve_phase it stays on multiples of its period |

## Left out

- Text: UTF-8 is the well-formedness test of CPython's decoder; strings are their encoded bytes. Case folding and white
  space are those of ASCII, since only ASCII lines reach them.
- `int(text)` and `int(text, 16)` are parameters of the HTTP model. Reading chunks back asks of them only that they
  agree with lower-case digits; no other property of theirs is used.
- Floats: a MessagePack float is its four-byte pattern. Rounding a wider float, the payload of a NaN and the identity of
  NaN objects as keys are not modelled. Tuples are lists, and tuple keys, which the encoder takes and the decoder refuses,
  are not legal values here; nor are lone surrogates and types the encoder does not know.
- Callbacks that call back into the library: they are events or counters here, so a callback that publishes, closes or
  disconnects while it runs is not modelled.
- The MQTT DISCONNECT packet, CONNECT, SUBSCRIBE and UNSUBSCRIBE encodings, acknowledgement timeouts, retries, keepalive,
  reconnection and the send deadline. `MqttTx` starts at a fresh connection and stops at the first error.
- The WebSocket handshake, close codes, timeouts and `on_close`. The session is modelled as an inbound half and an
  outbound half; after a protocol violation only the outbound half's CLOSE is described.
- URL handling, redirects (with the discarded body they involve), cookies, JSON and the request side of HTTP. The server's
  RequestParser is a smaller relative of the response parser whose header cap counts body bytes that share a feed, so its
  outcome does depend on segmentation.
- The HTTP receive loop's deadlines and the connector before it.
- Key matrices, CircuitPython's key events and the pin wiring. After a ring overflow, or when the ring of
  ticks could have gone half round between drains, debounce claims alternation and where the stamps come from, not that
  every press is reported.
- `DebounceRuns.Watch`: leaves open whether the ring overflows, and which edges it then keeps, when it has no slot for
  every pulse between two complete drains but only interrupts during a check, not before it, are too many: that depends on
  how the bursts fall between the steps of the check.
- `HttpExchange.Exchange`: asks that the application's fields leave the framing in place, because otherwise the head
  announces something else (`HttpHead.FramingAnnouncesIff`).
- `Buttons.Drive`: does not claim that click series are independent of how often the button is checked, because edges seen
  in one check are not separated by the time between them.
- Poll objects that key by object instead of descriptor, and error dispatch after a poll. `PollSet` asks that services
  want only sockets that are open.
- `KVStore.Session`: does not model values changed in place inside the store, other owners of the backend, or a backend whose
  write fails after the capacity test.
- `Timing.RunRate`: takes a period the constructor accepts; `NewRate` has the refusal.
- `Timing.RunTask`: takes a registered entry with a period; one without runs once or at every tick, as `Task.Tick` says.
- `Timing.Task.Tick`: leaves out the check function, run counts and handler errors.
- `MqttWire.PackPublish`: takes the topic as its UTF-8 bytes.
- `HttpClient.Feeding`: takes the whole capacity of the body buffer as a parameter and does not model sharing one buffer
  between requests.
