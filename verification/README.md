# Lamp-bus protocol stack, modelled in Dafny

This project models the `protocol` package of a lighting controller. The
package talks to a chain of strobe lamps over one serial line. Every packet
on the line is five bytes: `[0xFE, ADDRESS, COMMAND, DATA, 0xFD]`. Address
0xFF is every lamp and 0x00 is the master. The serial connection stacks five
duplex layers, from the wire up (`packages/headless/src/deviceManager/serial.ts:81-87`):

1. **Framing** (`Framing`): cuts the received byte stream into 5-byte packets. Nothing changes on the way down.
2. **Protocol** (`Encoder`, `Decoder`): message to packet and back, through the command-name/command-byte table.
3. **Request/response correlator** (`ReqRes`): lets one query at a time be outstanding and annotates its reply with the lamp's address and channel.
4. **Value codec** (`Codecs`): linear rescaling between application values and the wire data byte, per channel.
5. **Channel abstraction** (`Abstraction`): maps application channels to read and write commands. Every write to a single lamp is followed by a read-back query.

Two more pieces are modelled:

- **Auto-query layer** (`AutoQuery`): an alternative top layer that classifies command names as queries. It is not part of the stack above.
- **Discovery probe** (`HintValidator`): sweeps a firmware-version query over addresses 0x01..0xFE, three times, and turns the first answer into a device candidate.

`Common` holds the shared vocabulary: bytes, delimiters, messages and their
metadata, and the result types. `Stack` states properties of the composed
layers.

Every layer is a pure function from its input to what it pushes on. The
correlator's mutex, deferred promise and cancellation tokens are an
explicit state (`ReqRes.Slot`) driven by events. The discovery sweep takes
its environment as parameters:

- the replies each probe would see, as an oracle;
- the point at which the root cancellation fires;
- the connection digest.

Errors that the source throws are `Err` values in the model. A rejected
downstream push under the correlator's lock is an event (`ReqRes.PushFailed`):
the lock is released and the request settles as failed.

## Model

| member | source | states |
|---|---|---|
| `Common.ToByte` | packages/protocol/src/encoder.ts:30-36 | Storing a number in a byte buffer keeps it modulo 256, so a number that is already a byte is stored unchanged. |
| `Common.DelimitersDistinct` | packages/protocol/src/common.ts:5-6 | The start delimiter is 0xFE, the end delimiter is 0xFD, and they differ. |
| `Common.SamplePacketWellFormed` | packages/protocol/src/common.ts:15-16 | The sample packet is well-formed, is addressed to lamp 2, and its data byte 0x88 is 53% of 0xFF to the nearest percent. |
| `Common.IsPacket` | packages/protocol/src/framing.ts:35-42 | A packet is five bytes: the start delimiter, an address and a command that are neither delimiter, any data byte, and the end delimiter. The framer emits only such packets (`Framing.ScanAt`), and an encoded packet passes the framer exactly when it is one (`Stack.FramedWhole`). |
| `Common.DataByteUnconstrained` | packages/protocol/src/common.ts:8-11 | Only the delimiters, address and command are constrained: any data byte, delimiters included, keeps a packet well-formed. |
| `Framing.ScanAt` | packages/protocol/src/framing.ts:27-55 | Every packet emitted is well-formed and has a recorded offset. Every input byte is accounted for: five per packet, one per resynchronisation step, and the leftover. The leftover is the tail of the input and is shorter than five bytes. |
| `Framing.Scan` | packages/protocol/src/framing.ts:22-55 | The same accounting for a whole buffer: the emitted packets are well-formed and the leftover is under five bytes. |
| `Framing.ScanWindows` | packages/protocol/src/framing.ts:35-53 | The emitted packets are exactly the input's bytes at their offsets. The offsets increase and the windows do not overlap. |
| `Framing.ScanCovers` | packages/protocol/src/framing.ts:35-53 | Completeness: the start of every well-formed window in the input lies inside some emitted packet, so no packet is skipped over. |
| `Framing.NoPacketsIffNoWindow` | packages/protocol/src/framing.ts:27-55 | The scan emits nothing if and only if no 5-byte window of the input is a packet. |
| `Framing.Receive` | packages/protocol/src/framing.ts:19-57 | One call emits only well-formed packets, at most one per five bytes, and leaves the decoder state unchanged. |
| `Framing.Send` | packages/protocol/src/framing.ts:10-14 | The encoding direction passes the bytes through unchanged. |
| `Framing.ReceiveLoop` | packages/protocol/src/framing.ts:22-55 | The while loop that drops one or five leading bytes per pass emits exactly the packets of the scan. |
| `Framing.ReceiveAll` | packages/protocol/src/framing.ts:17-22 | Over any sequence of chunks, the decoder state never changes. |
| `Framing.BufferStaysEmpty` | packages/protocol/test/framing.test.ts:68-80 | From the initial decoder the stored buffer stays empty, so it is under five bytes after any input, however much garbage arrives. |
| `Framing.SplitPacketLost` | packages/protocol/src/framing.ts:17-22 | A packet split across two calls is never emitted, because the leftover bytes are not stored. The same bytes in one call are emitted. |
| `Framing.SinglePacket` | packages/protocol/src/framing.ts:35-50 | Input that is exactly one packet yields that packet, with nothing discarded or left over. |
| `Framing.EmbeddedPacket` | packages/protocol/src/framing.ts:27-55 | One packet surrounded by bytes that form no packet is found wherever it sits. |
| `Framing.GoldenPackets` | packages/protocol/test/framing.test.ts:39-67 | The sample packet is recovered when it is alone, after garbage, after redundant start bytes and before redundant end bytes. |
| `Framing.GarbageOnly` | packages/protocol/test/framing.test.ts:68-80 | Nineteen bytes of garbage yield no packet and leave the buffer under five bytes. |
| `Encoder.Encode` | packages/protocol/src/encoder.ts:19-39 | The packet is start, address, command byte, data, end. The address and the payload (missing read as 0x00) are stored modulo 256, and the command byte is the table's byte for the command name. Unknown or unset command names are an error and nothing else is. |
| `Encoder.WideValuesTruncated` | packages/protocol/src/encoder.ts:30-36 | Address 0x102 goes on the wire as 0x02 and payload -1 as 0xFF. |
| `Encoder.Receive` | packages/protocol/src/encoder.ts:46-52 | The encoder pushes exactly one 5-byte packet per message, and fails exactly when encoding fails. |
| `Encoder.NullPayloadIsZero` | packages/protocol/src/encoder.ts:27-28 | A missing payload goes on the wire as 0x00. |
| `Encoder.EncodeIgnoresIdAndFlags` | packages/protocol/src/encoder.ts:19-39 | The packet depends only on the address, command name and payload, never on the ID, channel, query flag or timestamp. |
| `Encoder.GoldenPacket` | packages/protocol/test/encoder.test.ts:56-68 | Lamp 2, set-bottom-intensity, payload 0x88 becomes the expected five bytes. |
| `Decoder.Decode` | packages/protocol/src/decoder.ts:17-40 | A command byte missing from the table is an error, and nothing else is. Otherwise the ID and metadata carry the packet's address and command name, and the payload is the data byte. The channel is never set. |
| `Decoder.Receive` | packages/protocol/src/decoder.ts:51-56 | A decoded message is stamped with the injected clock's time. Its ID, payload and all other metadata are those of the decoded packet. |
| `Decoder.ReceiveOnlyStamps` | packages/protocol/src/decoder.ts:51-56 | A received delimited packet re-encodes to the same bytes. Two receptions of one packet differ only in the timestamp. |
| `Decoder.DecodeEncode` | packages/protocol/src/decoder.ts:17-40 | Decoding the encoding of a message returns its address, command name and payload, with a missing payload read back as 0x00. |
| `Decoder.EncodeDecode` | packages/protocol/src/encoder.ts:19-39 | Re-encoding a decoded, delimited packet reproduces it byte for byte. |
| `Decoder.GoldenPacket` | packages/protocol/test/decoder.test.ts:55-65 | The golden packet decodes to lamp 2, read-bottom-intensity, payload 0x88. |
| `Decoder.UnknownByteRejected` | packages/protocol/src/decoder.ts:23-29 | A packet with an unknown command byte yields no message at any time. |
| `Codecs.RoundDiv` | packages/protocol/src/codecs.ts:24-27 | The result is the integer nearest to the quotient, with halves rounding up. |
| `Codecs.Map` | packages/protocol/src/codecs.ts:10-28 | Inputs outside the declared input range are an out-of-range error, and nothing else is. Otherwise the result is the nearest integer to the linear rescaling, lies within the output range, and maps each input end to the matching output end. |
| `Codecs.MapMonotone` | packages/protocol/src/codecs.ts:24-27 | The rescaling never reverses the order of two inputs. |
| `Codecs.MapIdentity` | packages/protocol/src/codecs.ts:24-27 | A rescaling with equal input and output ranges returns its input. |
| `Codecs.ExpandThenBack` | packages/protocol/src/codecs.ts:10-28 | Rescaling into a range at least as wide and back again returns the original value. |
| `Codecs.EncodeRange` | packages/protocol/src/codecs.ts:30-55 | Every channel, and an unset one, has a well-formed range with a non-empty output. |
| `Codecs.DecodeRange` | packages/protocol/src/codecs.ts:57-74 | Every channel, and an unset one, has a well-formed decode range with a non-empty output. |
| `Codecs.EncodeData` | packages/protocol/src/codecs.ts:30-55 | Encoding fails exactly outside the channel's input range, and otherwise yields a byte. |
| `Codecs.DecodeData` | packages/protocol/src/codecs.ts:57-74 | Decoding fails exactly outside the channel's wire range, and otherwise lands in the channel's application range. |
| `Codecs.EncodeIdentityRanges` | packages/protocol/src/codecs.ts:30-55 | Addresses 1..252, options 0..0x26 and every channel without its own case encode unchanged. |
| `Codecs.AddressOutOfRange` | packages/protocol/test/codecs.test.ts:15-27 | Lamp addresses -100, 0 and 0xFFFF are rejected. |
| `Codecs.WireOutOfRange` | packages/protocol/test/codecs.test.ts:36-48 | Wire values below a channel's minimum or above 0xFF are rejected. |
| `Codecs.StrobeDelayGolden` | packages/protocol/test/codecs.test.ts:28-54 | A strobe delay of 512 or 515 encodes to 2 and 1024 to 4. Wire values 0, 1, 2 and 4 decode to 0, 256, 512 and 1024. |
| `Codecs.WirePointsStable` | packages/protocol/src/codecs.ts:30-74 | Every wire value the encoder produces decodes to a value that encodes back to the same wire value. |
| `Codecs.EncodeMessage` | packages/protocol/src/codecs.ts:76-96 | A query's payload becomes 0x00 with no range check. Any other message fails exactly when its payload (missing read as 0x00) is out of range for its channel. The ID and metadata are kept. An accepted write's payload becomes the channel's wire value for it, a byte. |
| `Codecs.MessageRoundTrip` | packages/protocol/src/codecs.ts:76-111 | An accepted write decodes back to a message with the same ID and metadata, and that message encodes to the same wire payload again. |
| `Codecs.DecodeMessage` | packages/protocol/src/codecs.ts:98-111 | The payload is replaced by its decoded value, and decoding fails exactly when the wire value is out of range. |
| `Codecs.NullPayloadIsZero` | packages/protocol/src/codecs.ts:85-88 | In both directions a missing payload is treated exactly like 0x00. |
| `Abstraction.ReadCommand` | packages/protocol/src/abstraction.ts:12-29 | Any read command the table gives for a channel serves exactly that channel, as a query. |
| `Abstraction.WriteCommand` | packages/protocol/src/abstraction.ts:31-48 | Any write command the table gives for a channel serves exactly that channel, as a write. |
| `Abstraction.TablesInvert` | packages/protocol/src/abstraction.ts:12-48 | A command is the table entry for a channel and direction exactly when it serves that channel and direction. The tables are injective and their ranges are disjoint. |
| `Abstraction.EveryChannelReachable` | packages/protocol/src/abstraction.ts:12-48 | Every channel can be read or written. The unreadable and the unwritable channels are exactly the listed ones. |
| `Abstraction.SendDownstream` | packages/protocol/src/abstraction.ts:55-93 | Nothing is forwarded exactly when the direction's table has no command. Otherwise the message is forwarded with the ID's address and channel and a command serving that channel and direction. |
| `Abstraction.ReadBack` | packages/protocol/src/abstraction.ts:108-113 | The read-back query keeps the ID, has payload 0x00, has the query flag set and no other metadata. |
| `Abstraction.Receive` | packages/protocol/src/abstraction.ts:95-121 | Queries and broadcast writes are forwarded once. Any other write is forwarded and then read back. At most two messages go down, each with the same ID and a command. |
| `Abstraction.WriteIsReadBack` | packages/protocol/src/abstraction.ts:107-120 | A write to one lamp on a read/write channel sends the set command with the payload, then the read command with 0x00, to the same address. |
| `Abstraction.OnlyBroadcastSkipsReadBack` | packages/protocol/src/abstraction.ts:101-120 | A write yields two messages if and only if the address is not broadcast and the channel has both commands. |
| `Abstraction.ReadOnlyWriteOnlyQueries` | packages/protocol/src/abstraction.ts:76-85 | A write to a read-only channel of one lamp sends only the read-back query, for example the error-flag read for health status. |
| `Abstraction.QueryAtMostOnce` | packages/protocol/src/abstraction.ts:101-103 | A query sends one message on a readable channel and none otherwise. |
| `Abstraction.Ascend` | packages/protocol/src/abstraction.ts:124-133 | Inbound messages pass unchanged. |
| `AutoQuery.IsQueryCommand` | packages/protocol/src/auto-query.ts:10-37 | The classification is covered by `AutoQuery.ElevenQueries` and `AutoQuery.AgreesWithChannelTables`: eleven commands are queries, no write command is one, and every read command of the channel tables is one except the error-flag read. |
| `AutoQuery.AllCommandsComplete` | packages/protocol/src/auto-query.ts:10-37 | The command list used for counting holds all 22 command names. |
| `AutoQuery.ElevenQueries` | packages/protocol/src/auto-query.ts:10-37 | Exactly eleven of the 22 command names are classified as queries. |
| `AutoQuery.AgreesWithChannelTables` | packages/protocol/src/auto-query.ts:10-37 | No write command is a query. Every read command of the channel tables is one, except the error-flag read. |
| `AutoQuery.Encode` | packages/protocol/src/auto-query.ts:46-66 | The query flag is the command's classification and a query's payload becomes 0x00. The ID's address and command are stamped into the metadata; the channel and timestamp are untouched. |
| `AutoQuery.EncodeIdempotent` | packages/protocol/src/auto-query.ts:46-66 | A second pass changes nothing. |
| `AutoQuery.EncodeIgnoresIncomingFlags` | packages/protocol/src/auto-query.ts:53-63 | The incoming query flag, address and command name do not affect the result. |
| `ReqRes.TakesLock` | packages/protocol/src/reqres-pipeline.ts:33-44 | Only queries to a single lamp take the lock. Writes and broadcast queries are sent at once without touching it (`ReqRes.BypassLeavesSlot`). |
| `ReqRes.OnSubmit` | packages/protocol/src/reqres-pipeline.ts:32-65 | Submitting a message keeps the slot invariant. Its bypass, queueing and admission behaviour is stated by `ReqRes.BypassLeavesSlot`, `ReqRes.StepKeepsOrder` and `ReqRes.SingleFlight`. |
| `ReqRes.OnInbound` | packages/protocol/src/reqres-pipeline.ts:78-104 | An inbound message keeps the slot invariant. Its annotation, rejection and pass-through are stated by `ReqRes.ReplyIsAnnotated`, `ReqRes.ForeignReplyRejected` and `ReqRes.UnlockedPassThrough`. |
| `ReqRes.OnCancel` | packages/protocol/src/reqres-pipeline.ts:48-52 | A token firing keeps the slot invariant: the holder is released as cancelled (`ReqRes.Release`), and a waiting request is only marked (`ReqRes.MarkCancelled`). |
| `ReqRes.OnPushFailed` | packages/protocol/src/reqres-pipeline.ts:58-63 | A rejected downstream push keeps the slot invariant. What it does to the holder and the line is stated by `ReqRes.PushFailureReleases`. |
| `ReqRes.PushFailureReleases` | packages/protocol/src/reqres-pipeline.ts:44-63 | When the holder's push rejects, the holder settles as failed before anyone else, and the lock passes to the first waiter whose token has not fired, whose query is sent. The lock is freed if there is no such waiter. A failure reported for any other request changes nothing. |
| `ReqRes.FirstLive` | packages/protocol/src/reqres-pipeline.ts:48-52 | Finds the first waiting request whose token has not fired. Every one before it has fired. |
| `ReqRes.Admit` | packages/protocol/src/reqres-pipeline.ts:44-58 | Taking the free lock: waiters whose tokens fired are settled as cancelled, in order. The first live waiter takes the lock, its channel and address are recorded, and its query is the only message sent. |
| `ReqRes.MarkCancelled` | packages/protocol/src/reqres-pipeline.ts:48-52 | A token firing for a waiting request marks that request and changes nothing else in the line. |
| `ReqRes.CloseAll` | packages/protocol/src/reqres-pipeline.ts:68-70 | On disconnect every waiter is settled as closed, in line order. |
| `ReqRes.Release` | packages/protocol/src/reqres-pipeline.ts:60-63 | Releasing settles the holder with the given outcome first. At most the next live waiter's query is sent and nothing is delivered. |
| `ReqRes.Step` | packages/protocol/src/reqres-pipeline.ts:32-104 | Every event keeps the invariant: nobody waits while the lock is free, and every waiter carries its address and channel. The events are a submitted message, an inbound message, a token firing, a rejected downstream push and a disconnect. |
| `ReqRes.StepKeepsOrder` | packages/protocol/src/reqres-pipeline.ts:44-64 | Requests hold the lock in arrival order: after any event the line is a suffix of the old line followed by the newcomer. A disconnect keeps only the holder. |
| `ReqRes.SingleFlight` | packages/protocol/src/reqres-pipeline.ts:44-58 | At most one locking query goes out per event, it is the last message sent, and the lock then records its channel and address. A previous holder is settled first, as answered, cancelled or failed. |
| `ReqRes.BypassLeavesSlot` | packages/protocol/src/reqres-pipeline.ts:33-41 | Writes and broadcast queries are sent at once and settled without touching the lock. |
| `ReqRes.CancelledQueryNotSent` | packages/protocol/src/reqres-pipeline.ts:49-52 | A query whose token has already fired when it gets the lock is not sent, and the lock is released. |
| `ReqRes.ReplyIsAnnotated` | packages/protocol/src/reqres-pipeline.ts:83-95 | While locked, a message on the recorded channel is delivered with the recorded address and an ID built from the recorded address and channel, and the holder is answered. Its own ID and address do not matter. |
| `ReqRes.ForeignReplyRejected` | packages/protocol/src/reqres-pipeline.ts:96-99 | While locked, a message on any other channel is an unexpected-reply error. Nothing is delivered and the state is unchanged. |
| `ReqRes.UnlockedPassThrough` | packages/protocol/src/reqres-pipeline.ts:83-103 | With the lock free, inbound messages pass unchanged. |
| `ReqRes.DisconnectClosesLine` | packages/protocol/src/reqres-pipeline.ts:68-70 | A disconnect settles every waiter as closed, in order, and leaves the holder holding. |
| `ReqRes.Run` | packages/protocol/src/reqres-pipeline.ts:27-105 | The invariant holds after any sequence of events. |
| `ReqRes.TimeoutThenRetry` | packages/protocol/test/reqres.test.ts:129-188 | A query that times out is settled as cancelled. A retry is answered: two queries went out, one reply came up, annotated with lamp 1. |
| `ReqRes.ThreeConcurrentQueries` | packages/protocol/test/reqres.test.ts:83-128 | Three concurrent queries go out one at a time. Each reply is annotated with the queried lamp and answers the queries in order. |
| `ReqRes.ConcurrentQueries` | packages/protocol/test/reqres.test.ts:83-128 | From any free, well-formed state, three concurrent queries followed by replies 0, 1 and 2 behave the same way. Each query goes out once, the replies come up in order annotated with lamp 1, the requests are answered in submission order, and the lock ends free. |
| `ReqRes.RepliesDrainLine` | packages/protocol/src/reqres-pipeline.ts:44-95 | While lamp 1's firmware-version query holds the lock with more of them waiting, one reply per request drains the line. Each waiter's query is sent once when its turn comes. The replies are delivered in order, annotated with lamp 1. Every request is answered in line order, no error is raised, and the lock ends free. |
| `ReqRes.AnswerStep` | packages/protocol/test/reqres.test.ts:39-82 | A reply answers the holder and hands the lock to the next waiter, whose query is sent. |
| `HintValidator.AddressOf` | packages/protocol/src/hint-validator.ts:109 | Probe number k goes to an address between 0x01 and 0xFE. Attempt t at address a is probe t × 254 + a − 1 (`HintValidator.ProbeIndex`). |
| `HintValidator.SweepFrom` | packages/protocol/src/hint-validator.ts:104-149 | The reference definition of the sweep from a given probe on. `HintValidator.SweepClosedForm` states its outcome and `HintValidator.SweepStep` its single step. |
| `HintValidator.Sweep` | packages/protocol/src/hint-validator.ts:104-149 | The reference definition of `startValidation`. `HintValidator.Validate` computes exactly it, and `HintValidator.ProbeCounts` bounds its probes. |
| `HintValidator.ProbeCounts` | packages/protocol/src/hint-validator.ts:104-149 | A sweep covers 254 addresses. Whatever the replies and the cancellation, validation sends at most 3 × 254 = 762 probes, the i-th of them to address i mod 254 + 1. |
| `HintValidator.Probe` | packages/protocol/src/hint-validator.ts:67-74 | A probe is a firmware-version query with payload 0x00, the address and command stamped in its metadata. |
| `HintValidator.FirstMatch` | packages/protocol/src/hint-validator.ts:53-59 | The reply waited for is the first one whose ID is the probed address's firmware-version ID. There is none if no reply has that ID. |
| `HintValidator.DigitsRoundTrip` | packages/protocol/src/hint-validator.ts:95 | The decimal text of a version reads back as that version. |
| `HintValidator.VersionText` | packages/protocol/src/hint-validator.ts:95 | The version printed as text, with a missing version printed as `undefined`. `HintValidator.VersionTextDecimal` states its form for present versions. |
| `HintValidator.VersionTextDecimal` | packages/protocol/src/hint-validator.ts:95 | A version prints as decimal digits, preceded by a minus sign when negative, and the digits read back as its magnitude. |
| `HintValidator.DeviceId` | packages/protocol/src/hint-validator.ts:95 | The device ID joins the version text and the digest with a dash. `HintValidator.DeviceIdRoundTrip` states that it splits back into both. |
| `HintValidator.DeviceIdRoundTrip` | packages/protocol/src/hint-validator.ts:90-95 | A device ID splits back into its version and its digest, whatever the digest holds. |
| `HintValidator.Received` | packages/protocol/src/hint-validator.ts:81-102 | Only the first response counts: it pushes the candidate made of version and digest. Later responses change nothing. |
| `HintValidator.ReceivedKeepsOne` | packages/protocol/src/hint-validator.ts:81-88 | However many responses arrive, at most one candidate is pushed, and exactly one once anything was received. |
| `HintValidator.FirstAnswered` | packages/protocol/src/hint-validator.ts:107-129 | Finds the first probe that gets an answer. No earlier probe is answered. |
| `HintValidator.SweepClosedForm` | packages/protocol/src/hint-validator.ts:104-149 | Closed form of the sweep. Probes go out in sweep order until the first answered one or the cancellation, whichever comes first. One candidate, carrying that answer's version, is pushed exactly when the answered probe went out. The sweep halts exactly when the cancellation comes first. |
| `HintValidator.Exhausted` | packages/protocol/src/hint-validator.ts:145-148 | With no replies all 762 probes go out and validation completes with no candidate. |
| `HintValidator.ProbeIndex` | packages/protocol/src/hint-validator.ts:107-109 | Attempt t at address a is probe number t × 254 + a − 1, which is below 762 and maps back to that attempt and address. |
| `HintValidator.SweepOrder` | packages/protocol/src/hint-validator.ts:107-109 | Consecutive probes step through the addresses 0x01..0xFE, and the next sweep starts again at 0x01. |
| `HintValidator.Validate` | packages/protocol/src/hint-validator.ts:104-149 | The nested attempt/address loops compute exactly the sweep. |
| `HintValidator.SweepAddresses` | packages/protocol/src/hint-validator.ts:108-138 | One pass of the address loop does one of two things. It ends validation with the outcome the sweep gives from where the pass started. Otherwise it sends 254 probes and hands on a state from which the rest of the sweep comes out the same. |
| `HintValidator.SweepStep` | packages/protocol/src/hint-validator.ts:108-128 | When neither the cancellation nor an earlier answer stops it, a probe is sent to its address. Its reply, if any, becomes the one candidate. |
| `Stack.FramedWhole` | packages/protocol/src/framing.ts:35-42 | An encoded packet passes through the framers whole if and only if its address and command bytes avoid the delimiters. Otherwise nothing comes out. |
| `Stack.DelimiterProbesUnframeable` | packages/protocol/src/hint-validator.ts:109 | Two of the 254 swept addresses, 0xFD and 0xFE, are the delimiters, so their probe packets are never accepted by the framer. Every other swept address is accepted when the command byte avoids the delimiters. |
| `Stack.DecodedReplyRejected` | packages/protocol/src/reqres-pipeline.ts:83-99 | The decoder leaves the channel unset, so in the composed stack any packet arriving while a query is outstanding raises the unexpected-reply error and the lock stays held. |
| `Stack.AbstractionStampsLock` | packages/protocol/src/abstraction.ts:87-90 | Every message the abstraction forwards carries the address and channel the correlator's lock records. |
| `Stack.SendPath` | packages/protocol/src/codecs.ts:76-96 | The path below the abstraction runs codec, correlator, encoder, framer. The correlator forwards the message itself unchanged, so it is left out of the composition (`ReqRes.BypassLeavesSlot`, `ReqRes.Admit`). A message fails exactly when the codec or the encoder rejects it. Otherwise it becomes one delimited 5-byte packet. |
| `Stack.SendPathDecodes` | packages/protocol/src/decoder.ts:17-40 | The packet sent for a message decodes back to its address and its command. Its data is the codec's wire value: the encoded payload for a write, 0x00 for a query. |
| `Stack.Forward` | packages/protocol/src/abstraction.ts:114-120 | The messages the abstraction forwards pass the codec in order. The call stops at the first one the codec rejects, with that error, and nothing after it is pushed. |
| `Stack.RejectedWriteNotReadBack` | packages/protocol/src/abstraction.ts:114-120 | A write to one lamp whose value the codec rejects pushes nothing: the write fails out of range and no read-back query is sent. |
| `Stack.AcceptedWriteReadBack` | packages/protocol/src/abstraction.ts:114-120 | A write to one lamp on a read/write channel that the codec accepts pushes the encoded write, then the read-back query with 0x00. |
| `Stack.AddressZeroRejected` | packages/protocol/src/abstraction.ts:114-120 | Setting lamp 2's address to 0 is out of range, so nothing is pushed. |
| `Stack.StrobeDelayWrite` | packages/protocol/src/abstraction.ts:107-120 | End to end, writing 512 to lamp 2's strobe delay sends the set command with wire value 2. It then sends the read command with 0x00, which takes the free lock. |

## Left out

- The command-name/command-byte table is not part of this model. Encoder, decoder and the composed stack take it as a parameter. Round trips assume the two directions are mutually inverse, and golden packets assume the byte they need.
- The string format of message IDs and the parsers between IDs and (address, channel) or (address, command) are not part of this model. IDs are a datatype with one form per pairing, so `Abstraction.SendDownstream`, `Abstraction.Receive` and `AutoQuery.Encode` require the form their parser reads.
- Promises, `async`/`await` and pipeline plumbing are not modelled. Each layer is a function returning what it pushes, and the composed stack is stated in `Stack` as individual compositions.
- Timers and clocks are parameters: the decoder's timestamp source (`now`), the per-address deadline (whether a reply arrives in the window, via the oracle) and the root cancellation (`cancelAt`).
- The MD5 digest of the connection hash is a parameter string. Hashing is not modelled.
- `Abstraction.Receive`: lists what the abstraction pushes when every push succeeds. A push rejected further down ends the call before the read-back. `Stack.Forward` models this for rejections by the codec; rejections by lower layers are not modelled.
- `Abstraction.WriteIsReadBack`: states both messages the abstraction would push. When the codec rejects the write, the read-back is never sent (`Stack.RejectedWriteNotReadBack`).
- `Abstraction.OnlyBroadcastSkipsReadBack`: counts the messages the abstraction would push, ignoring rejections below. A write the codec rejects pushes nothing (`Stack.RejectedWriteNotReadBack`).
- `ReqRes.Step`: only messages that take the lock must carry their address and channel. The abstraction always provides both (`Stack.AbstractionStampsLock`); a query without them is not modelled.
- `ReqRes.Step`: the mutex release that follows resolving or rejecting the deferred is treated as happening in the same step. Interleavings of other events between the two are not modelled.
- `ReqRes.Step`: cancelling a waiting request only marks it, and it is settled when its turn comes. This follows the source, which subscribes the token only once the lock is held.
- `Decoder.Decode`: follows the code, which never sets the channel metadata. The decoder test still expects the channel to be set (`packages/protocol/test/decoder.test.ts:44-47`).
- `Codecs.Map`: inputs are integers. Non-integer application values and floating-point rounding error in the rescaling are not modelled; the rescaling is exact rational arithmetic rounded as `Math.round` rounds.
- `HintValidator.Validate`: the catch block's rethrow is not modelled. The probe swallows every write and wait error, so no error reaches it.
- `HintValidator.SweepFrom`: only replies inside a probe's own window are modelled. Replies outside every window have no listener in the source.
- Debug logging, console output and the `canValidate` hook (always true) are not modelled.
- The auto-query read side (`NoopPipeline`, packages/protocol/src/auto-query.ts:69-73) passes messages unchanged, like `Abstraction.Ascend`. It is not defined a second time.
- The duplex-pipeline wrapper classes only wire a read and a write pipeline together, and are not modelled separately.
