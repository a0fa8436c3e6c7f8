# Verified model of the RTK base relay's data path

The relay reads an RTCM 3 correction stream from one input, cuts it into frames where somebody needs
frames, and fans it out to destinations, each with its own filter, queue and connection. The project
models that path and the protocols around it, and proves what they keep over whole streams, whole runs
and every interleaving.

* **Frames** (`Crc24qDivision`, `Crc24q`, `Crc24qDetection`, `Crc24qOrder`, `Crc24qPeriod`,
  `LinearRegister`, `RtcmDecoder`, `FrameExtraction`, `FrameBits`, `DataPipeline`): the CRC-24Q table
  against bitwise division, what damage the checksum detects, up to the exact distance at which two
  flipped bits escape it, the resynchronising extractor against a greedy leftmost selection of frames on
  the whole stream, and the fields of a frame against its bits. Both extractors of the repository are
  proved equal to that selection.
* **NTRIP** (`ChunkedBody`, `SizeNumerals`, `ChunkedCuts`, `ChunkedFormat`, `CasterReply`, `HeaderFields`,
  `CasterReplyCuts`, `StreamPath`, `NtripInput`): the incremental chunked decoder and its encoder, the
  reply head, both against the format written down independently of the reading code, and the path from
  one relay's frames through messages, chunks and arbitrary reads to another relay's frames.
* **Fan-out** (`MessageFilter`, `FrameSubscription`, `SubscriberStream`, `DestinationRun`,
  `DestinationPaths`, `DestinationOrder`, `DestinationRisk`, `DestinationStop`, `BaseDestination`,
  `DestinationService`, `HubRun`, `BroadcastHub`): a state machine for a destination's threads, any number
  of loops at once, with a ledger of every item and exact conditions for overtaking, for losing all loops
  and for a stop that fails; one for the hub with hot changes, and the objects themselves, whose methods
  are proved to be steps of those machines.
* **Protocols** (`ConnectRace`, `SubscribeStop`, `SubscriptionSteps`, `Backoff`, `Reconnect`,
  `NtripDestination`): connect racing disconnect, subscribing racing stop, the objects' calls as steps of
  those races, and the retry schedules.
* `RelayChain` joins the first three: one relay's hub, a destination with its queue and threads, the
  wire, and another relay's hub.

Bytes are 8-bit vectors and CRC registers 32-bit vectors kept within 24 bits; delays and clock readings
are real numbers; sockets, receive calls, connection outcomes and clock readings are parameters.

Where the code does not do what its comments or documentation say, the model follows the code, and a
lemma says exactly when the promise holds:

* The chunked decoder promises the same result for any cutting; it keeps that exactly for bodies that
  are malformed as a whole or have no size line over 256 bytes (`ChunkedCuts.CutsIrrelevantIff`).
* A running destination need not have a loop: pills left behind by earlier stops can end the loops of a
  restarted one, exactly when they are at least as many as the loops alive and no loop is clearing the
  queue (`DestinationStop.StrandedIff`, `DestinationStop.RestartBehindPill`).
* A stop promises to join the loop and to disconnect. If the room it made for its pill is taken by data
  or by another stop's pill, the second put raises and the stop ends there; that can happen exactly with
  a bounded queue, and never unless data or another stop's pill is put in between
  (`DestinationStop.StopRaisesIff`, `DestinationStop.StopCompletes`, `DestinationStop.RaisingStop`,
  `DestinationStop.RaisedBySecondStop`).
* The hub promises that a subscription is never left open and belongs to one run. Its own stop puts a
  pill in the same way, and stops destinations that do; if one of these puts raises, the subscriptions
  that are attached stay so, in the stopped hub and in its next run, and otherwise none does
  (`SubscribeStop.NoneLeftOpen`, `SubscribeStop.LeftOpenByFailure`, `HubRun.WithinRunLasts`,
  `HubRun.SubscribersOutliveStop`).
* A stop gives up its join after a while, and a start then adds a second loop to the first. Data can
  overtake data from then on, and only then (`DestinationOrder.OrderKept`,
  `DestinationRisk.OverlapLosesOrder`, `DestinationRisk.OrderLostIff`, `DestinationRisk.OutOfOrder`).
* A version 1 caster's reply is the status line alone; if a header line follows it, the cut between the
  receive calls decides whether that line is a header or data (`CasterReplyCuts.PlainReadIff`).
* `connect` promises False if a disconnect was called meanwhile; a disconnect before the generation is
  read goes unnoticed (`ConnectRace.EarlyDisconnectUnnoticed`), one after it never does
  (`ConnectRace.ConnectRaceSafety`).
* The hub's drop total counts all drops of its life, except those of an offer that a close has overtaken
  between its two halves (`SubscribeStop.DropsAreRejections`, `SubscribeStop.LateDropForgotten`).
* The reply head limit is 16 KiB; a head that ends one byte later is still always read
  (`CasterReplyCuts.HeadReadIff`).

In `DestinationRun`, `HubRun`, `ConnectRace` and `SubscribeStop` a run is any sequence of events; an
event that cannot happen in a state leaves it as it is, so a statement about all event sequences is one
about all interleavings. In the program only a connecting loop clears a destination's queue; the event
that clears it from outside is there because the method for it is public.

## Model

| member | source | states |
|---|---|---|
| `Crc24q.TableIsDivision` | src/sp_rtk_base_relay/rtcm_decoder.py:16-276 | every entry of the 256-entry table is eight steps of division by 0x1864CFB applied to its index in the top byte |
| `Crc24q.TableStep` | src/sp_rtk_base_relay/rtcm_decoder.py:313-314 | one look-up replaces eight division steps, and the index it computes is always in 0..255 |
| `Crc24q.CalcCrc24q` | src/sp_rtk_base_relay/rtcm_decoder.py:312-315 | the table-driven loop computes the bitwise remainder of the whole byte string |
| `Crc24qDetection.RemainderIsFeed` | tests/fixtures/rtcm_generator.py:62-75 | the byte-wise remainder is a one-bit-at-a-time shift register run over the bits, first bit first |
| `Crc24qDetection.TrailerMatchesIffDivides` | src/sp_rtk_base_relay/rtcm_decoder.py:338-345 | the last three bytes equal the checksum of the rest exactly when the register run over all bytes ends at 0 |
| `Crc24qDetection.BurstNeverDivides` | src/sp_rtk_base_relay/rtcm_decoder.py:312-315 | two different strings that agree outside 24 consecutive bits, at any bit offset, never both leave remainder 0 |
| `Crc24qDetection.OddErrorNeverDivides` | src/sp_rtk_base_relay/rtcm_decoder.py:312-315 | an odd number of flipped bits, anywhere, never leaves remainder 0 again (the polynomial has the factor x + 1) |
| `Crc24qOrder.SquareKeepsRest` | src/sp_rtk_base_relay/rtcm_decoder.py:312-315 | bit strings with the same remainder have squares with the same remainder, squaring being taken over coefficients 0 and 1 |
| `Crc24qPeriod.PeriodIff` | src/sp_rtk_base_relay/rtcm_decoder.py:312-315 | x^d leaves the remainder of 1 exactly when 2^23 - 1 divides d: the order of x modulo the checksum's polynomial |
| `Crc24qPeriod.TwoFlipsIff` | src/sp_rtk_base_relay/rtcm_decoder.py:312-315 | of two strings that differ in exactly two bits both leave remainder 0, given that one does, exactly when the bits are a multiple of 2^23 - 1 apart |
| `RtcmDecoder.CheckCrc24q` | src/sp_rtk_base_relay/rtcm_decoder.py:318-345 | the check, run with the table loop, is the bitwise one; anything under six bytes fails |
| `RtcmDecoder.ValidIffDivides` | src/sp_rtk_base_relay/rtcm_decoder.py:332-345 | a frame of six or more bytes validates exactly when the register run over it, trailer included, ends at 0 |
| `RtcmDecoder.BurstDetected` | src/sp_rtk_base_relay/rtcm_decoder.py:318-345 | damage to a valid frame confined to 24 consecutive bits, trailer included, is always detected |
| `RtcmDecoder.ThreeByteDamageDetected` | src/sp_rtk_base_relay/rtcm_decoder.py:318-345 | damage to a valid frame confined to three consecutive bytes is always detected |
| `RtcmDecoder.OddDamageDetected` | src/sp_rtk_base_relay/rtcm_decoder.py:318-345 | flipping an odd number of bits of a valid frame is always detected |
| `RtcmDecoder.TwoFlipsPassIff` | src/sp_rtk_base_relay/rtcm_decoder.py:318-345 | two flipped bits of a valid frame go unnoticed exactly when they are a multiple of 8388607 bits apart, farther than any frame is long |
| `RtcmDecoder.ThreeFlipsDetected` | src/sp_rtk_base_relay/rtcm_decoder.py:318-345 | one, two or three flipped bits anywhere in a valid frame of up to 8388607 bits are always detected |
| `RtcmDecoder.FrameAccepted` | src/sp_rtk_base_relay/rtcm_decoder.py:364-414 | for a string of exactly its declared size the validator accepts it if and only if it is a frame (preamble, two or more payload bytes, remainder 0), and then its message number is found |
| `RtcmDecoder.PrintedIsFrame` | tests/fixtures/rtcm_generator.py:23-51 | a printed payload of 2 to 1023 bytes is a frame, and the frame carries that payload |
| `RtcmDecoder.FrameIsPrinted` | tests/fixtures/rtcm_generator.py:23-51 | a frame with clear reserved bits is exactly what printing its payload gives |
| `FrameBits.FrameByBits` | src/sp_rtk_base_relay/rtcm_decoder.py:364-414 | a frame field by field: 0xD3, six bits of any value, ten bits that say how long the rest is, at least two payload bytes, remainder 0; and its number is what bits 24 to 35 say |
| `FrameBits.PrintedNumberComesBack` | tests/fixtures/rtcm_generator.py:121-134 | a message whose first twelve bits are a number from 0 to 4095 is printed as a frame from which exactly that number is extracted |
| `FrameBits.EmittedByBits` | src/sp_rtk_base_relay/core/broadcast_hub.py:726-757 | every frame the extractor emits starts with 0xD3, is as long as its ten length bits say, leaves remainder 0, and comes with the number of its twelve bits |
| `FrameExtraction.SlotStable` | src/sp_rtk_base_relay/core/broadcast_hub.py:726-757 | what the extractor does with a byte, once it can decide, is not changed by later data |
| `FrameExtraction.ParseSplit` | src/sp_rtk_base_relay/core/broadcast_hub.py:709-760 | parsing a + b is parsing a, then parsing the kept tail followed by b |
| `FrameExtraction.ChunkingIrrelevant` | src/sp_rtk_base_relay/core/broadcast_hub.py:709-760 | however a stream is cut into chunks, the frames, their numbers and the final tail are those of one call on the whole |
| `FrameExtraction.RestIsSettled` | src/sp_rtk_base_relay/core/broadcast_hub.py:759-760 | what is kept between calls is always a tail that waits for more bytes |
| `FrameExtraction.SettledTail` | src/sp_rtk_base_relay/core/broadcast_hub.py:726-760 | such a tail is empty, or starts with 0xD3 and is at most 1028 bytes; parsing it again finds nothing |
| `FrameExtraction.SelectIsGreedy` | src/sp_rtk_base_relay/core/broadcast_hub.py:726-757 | there is a selection of frames that always takes the first frame there is, continues behind it, and stops at the first undecided byte |
| `FrameExtraction.GreedyIsUnique` | src/sp_rtk_base_relay/core/broadcast_hub.py:726-757 | there is only one such selection |
| `FrameExtraction.ExtractionIsGreedy` | src/sp_rtk_base_relay/core/broadcast_hub.py:726-760 | the extractor returns exactly the greedy leftmost selection of valid frames and keeps exactly what follows it |
| `FrameExtraction.BoundedDelay` | src/sp_rtk_base_relay/core/broadcast_hub.py:726-760 | once 1029 bytes from p on have arrived, a valid frame starting at p has been emitted or is overlapped by an emitted frame that starts earlier, whatever came before |
| `FrameExtraction.FramesComeBack` | src/sp_rtk_base_relay/core/broadcast_hub.py:713-760 | frames laid end to end come back one by one, with nothing left over |
| `FrameExtraction.EmittedAreGenuine` | src/sp_rtk_base_relay/core/broadcast_hub.py:749-754 | every emitted frame is a valid frame whose number is found, so no valid frame is discarded for a missing number |
| `DataPipeline.ExtractAllMessageIds` | src/sp_rtk_base_relay/rtcm_decoder.py:455-489 | the loop computes the message numbers of a buffer, skipping a whole declared frame at a time |
| `DataPipeline.IdsComeBack` | src/sp_rtk_base_relay/rtcm_decoder.py:455-489 | on frames laid end to end these are the numbers the extractor reports, in order |
| `DataPipeline.IdsOfSegments` | src/sp_rtk_base_relay/rtcm_decoder.py:455-489 | whatever a buffer is made of, single bytes other than 0xD3 and strings of the size they declare, the numbers found are those of the valid strings; damaged ones are passed over whole |
| `DataPipeline.FrameHasOneId` | src/sp_rtk_base_relay/core/data_pipeline.py:304-319 | decoding one extracted frame yields exactly its own number |
| `DataPipeline.Pipeline.ExtractCompleteRtcmFrames` | src/sp_rtk_base_relay/core/data_pipeline.py:362-421 | the second extractor returns the same frames and keeps the same tail as the hub's, from equal buffers |
| `DataPipeline.Pipeline.CountMessages` | src/sp_rtk_base_relay/core/data_pipeline.py:293-320 | counts exactly the extracted frames' numbers; the decode-failure counter never moves |
| `ChunkedBody.ChunkedDecoder.constructor` | src/sp_rtk_base_relay/core/ntrip/chunked.py:17-21 | a new decoder is in the fresh state |
| `ChunkedBody.ChunkedDecoder.FeedData` | src/sp_rtk_base_relay/core/ntrip/chunked.py:28-75 | the loop over the four fields computes the recursive whole-body decoding: same output, same verdict, and the same fields afterwards, after a raise too |
| `ChunkedBody.LeavesWhatItReturns` | src/sp_rtk_base_relay/core/ntrip/chunked.py:28-75 | the fields left by a call that does not raise are the state the recursive decoding returns |
| `ChunkedCuts.RunSplit` | src/sp_rtk_base_relay/core/ntrip/chunked.py:28-75 | decoding a, then b, is decoding a + b, for any a that does not raise |
| `ChunkedCuts.RunRests` | src/sp_rtk_base_relay/core/ntrip/chunked.py:57-61 | between calls the decoder has nothing left to do and holds at most 256 bytes |
| `ChunkedCuts.CutsAgree` | src/sp_rtk_base_relay/core/ntrip/chunked.py:28-75 | from any resting state, where the size lines are within 256 bytes or the whole raises, every cutting gives the output, state and verdict of one call |
| `ChunkedCuts.LongLineCut` | src/sp_rtk_base_relay/core/ntrip/chunked.py:57-61 | a longer size line that passes in one call raises under some cutting |
| `ChunkedCuts.CutsIrrelevantIff` | src/sp_rtk_base_relay/core/ntrip/chunked.py:28-75 | the result is the same for every cutting of a body if and only if the body raises as a whole or all its size lines are within 256 bytes |
| `SizeNumerals.HexValueIff` | src/sp_rtk_base_relay/core/ntrip/chunked.py:63-65 | digits are read exactly where they are hexadecimal digits in either case, with single underscores between them or none, and read as the number they spell |
| `SizeNumerals.ParseIff` | src/sp_rtk_base_relay/core/ntrip/chunked.py:63-65 | a size field is accepted with a value exactly when it is an optional sign, an optional 0x or 0X, and such digits of that value |
| `SizeNumerals.SizeIff` | src/sp_rtk_base_relay/core/ntrip/chunked.py:62-67 | a line is read as a size exactly when it is blanks, such a numeral, blanks, and nothing or an extension behind a semicolon |
| `ChunkedFormat.ReadChunks` | src/sp_rtk_base_relay/core/ntrip/chunked.py:38-74 | whatever follows a run of chunks, the decoder first hands out exactly their data |
| `ChunkedFormat.FinishesIff` | src/sp_rtk_base_relay/core/ntrip/chunked.py:56-74 | the decoder reports the end with a given output exactly for the bodies of the format (chunks, a zero size line, anything) whose data is that output |
| `ChunkedFormat.RaisesIff` | src/sp_rtk_base_relay/core/ntrip/chunked.py:48-69 | the decoder raises exactly for bodies in which, behind some chunks, a line says no size, more than 256 bytes come without a line break, or data is not followed by a line end |
| `ChunkedFormat.PartOfChunk` | src/sp_rtk_base_relay/core/ntrip/chunked.py:39-45 | of a chunk that is not all there, the data that is there is handed out at once |
| `ChunkedFormat.HexRoundTrip` | src/sp_rtk_base_relay/core/destinations/ntrip_destination.py:192-193 | every natural number's hexadecimal form is read back as that number |
| `ChunkedFormat.HexIsShort` | src/sp_rtk_base_relay/core/destinations/ntrip_destination.py:192-193 | a length below 16^k prints in at most k digits |
| `ChunkedFormat.EncodedForm` | src/sp_rtk_base_relay/core/destinations/ntrip_destination.py:189-195 | what is written for a message is its length in lower-case hexadecimal without a leading zero, CR LF, the message, and CR LF |
| `ChunkedFormat.EncodeRoundTrip` | src/sp_rtk_base_relay/core/destinations/ntrip_destination.py:189-195 | any list of non-empty messages comes back whole; the decoder is then ready for a size line and has not ended |
| `ChunkedFormat.EmptyMessageEnds` | src/sp_rtk_base_relay/core/destinations/ntrip_destination.py:192-193 | an empty message is written as the last chunk, and everything behind it is lost to the reader |
| `ChunkedFormat.EncodedReads` | src/sp_rtk_base_relay/core/ntrip/chunked.py:28-75 | however encoded messages are cut into reads, decoding them gives the messages' bytes |
| `CasterReply.SplitHeaderBlock` | src/sp_rtk_base_relay/core/ntrip/protocol.py:191-204 | the loop splits off exactly the complete header lines up to and including a blank one, and says whether that was seen |
| `CasterReply.ReadReply` | src/sp_rtk_base_relay/core/ntrip/protocol.py:140-162 | the receive loop computes the recursive reading, with its timeout, end-of-stream and size-limit branches |
| `CasterReply.NothingLost` | src/sp_rtk_base_relay/core/ntrip/protocol.py:144-171 | whatever the socket does, the parsed reply with the calls not yet made holds every byte received |
| `CasterReply.LineStable` | src/sp_rtk_base_relay/core/ntrip/protocol.py:53 | a complete header line in a prefix is the same line in the whole, and the other way round |
| `CasterReply.BlockStable` | src/sp_rtk_base_relay/core/ntrip/protocol.py:199-204 | the same for a complete header block |
| `HeaderFields.LineIff` | src/sp_rtk_base_relay/core/ntrip/protocol.py:53 | a line is read as a header line exactly where it is a blank line, or a name of token characters, a colon, a value without line breaks, and LF or CR LF |
| `HeaderFields.BlockIff` | src/sp_rtk_base_relay/core/ntrip/protocol.py:191-204 | a header block is found complete, with its size, exactly where such fields and a blank line stand in front |
| `HeaderFields.OpenBlockIff` | src/sp_rtk_base_relay/core/ntrip/protocol.py:191-204 | and open exactly where such fields stand in front and no line follows them |
| `CasterReplyCuts.StopsShort` | src/sp_rtk_base_relay/core/ntrip/protocol.py:149-160 | where the head is not complete and the caster falls silent, what came is taken for the reply if it has a line and otherwise the reading times out; where the caster closes, it is taken in any case |
| `CasterReplyCuts.HeadReadIff` | src/sp_rtk_base_relay/core/ntrip/protocol.py:144-171 | for an HTTP reply, every cutting into receivable pieces gives the same status and header bytes with the body intact, if and only if the head ends within one byte of 16 KiB |
| `CasterReplyCuts.PlainReadIff` | src/sp_rtk_base_relay/core/ntrip/protocol.py:165-204 | for a status line that is not HTTP's, read within the limit: every two cuttings give the same reply if and only if no complete header line short enough to arrive with it follows; where one does, the cut decides whether it is taken for a header |
| `CasterReplyCuts.PlainReadOn` | src/sp_rtk_base_relay/core/ntrip/protocol.py:165-171 | without such a line the data behind the status line stays intact under every cutting |
| `CasterReplyCuts.RtcmIsNoHeader` | src/sp_rtk_base_relay/core/ntrip/protocol.py:194-197 | data starting with 0xD3 never looks like a header line |
| `CasterReplyCuts.RtcmBehindStatusIntact` | src/sp_rtk_base_relay/core/ntrip/protocol.py:194-197 | in particular a version 1 status line followed directly by 0xD3 data |
| `StreamPath.RelayIsWhole` | src/sp_rtk_base_relay/core/input_sources/ntrip_input.py:211-223 | decoding and extracting read by read is decoding and extracting the whole |
| `StreamPath.AnyPath` | src/sp_rtk_base_relay/core/broadcast_hub.py:697-760 | any stream cut into any non-empty messages, chunk-encoded, cut into any reads: the hub extracts exactly what one call on the stream would, and keeps the stream's tail |
| `StreamPath.WholePath` | src/sp_rtk_base_relay/core/broadcast_hub.py:697-760 | for a stream of frames: exactly the frames and numbers come out in order, and both buffers end up empty |
| `StreamPath.BodyIsIntact` | src/sp_rtk_base_relay/core/ntrip/protocol.py:144-171 | what the reply reader leaves over, with what it leaves unread, is exactly the body, however reply and body are cut together |
| `StreamPath.ReplyHeadIff` | src/sp_rtk_base_relay/core/ntrip/protocol.py:165-171 | the heads this is about are exactly the strings of up to 16385 bytes made of a line starting with HTTP/, header fields and a blank line |
| `StreamPath.WholeDownload` | src/sp_rtk_base_relay/core/input_sources/ntrip_input.py:142-153 | the whole path again, for any stream, with the caster's reply in front of it |
| `NtripInput.ListenIsRelay` | src/sp_rtk_base_relay/core/input_sources/ntrip_input.py:189-223 | the input's reads of a chunked body give the hub what decoding the received pieces gives |
| `NtripInput.ListenRaw` | src/sp_rtk_base_relay/core/input_sources/ntrip_input.py:189-223 | without chunked coding the reads are the stream itself |
| `NtripInput.InputDelivers` | src/sp_rtk_base_relay/core/input_sources/ntrip_input.py:74-231 | from connect to the hub, a chunked body of any bytes: what came with the reply and all later reads make the hub extract exactly what the stream holds |
| `NtripInput.RawInputDelivers` | src/sp_rtk_base_relay/core/input_sources/ntrip_input.py:74-231 | the same for a body that is not chunked |
| `NtripInput.PlainInputDelivers` | src/sp_rtk_base_relay/core/input_sources/ntrip_input.py:74-231 | the same for a version 1 reply, where the stream follows the status line directly |
| `NtripInput.BodyEnds` | src/sp_rtk_base_relay/core/input_sources/ntrip_input.py:213-223 | however a chunked body that has ended is cut, the hub gets the frames of its data, and the input is left without a connection |
| `NtripInput.EndsIff` | src/sp_rtk_base_relay/core/input_sources/ntrip_input.py:189-223 | a read gives the connection up exactly when it finds nothing for too long, an error, the end of the stream, or a chunked body corrupt or ended; any other leaves socket and generation as they are |
| `NtripInput.NothingBehindClose` | src/sp_rtk_base_relay/core/input_sources/ntrip_input.py:208-216 | where the connection breaks or closes, the hub keeps what it has and gets nothing more |
| `NtripInput.NtripInputSource.constructor` | src/sp_rtk_base_relay/core/input_sources/ntrip_input.py:44-58 | a new input has no socket, no waiting bytes and generation 0 |
| `NtripInput.NtripInputSource.Disconnect` | src/sp_rtk_base_relay/core/input_sources/ntrip_input.py:248-256 | is the disconnect step of the race: takes the socket, drops waiting bytes, clears the flag and moves the generation on |
| `NtripInput.NtripInputSource.BeginConnect` | src/sp_rtk_base_relay/core/input_sources/ntrip_input.py:89-91 | is the first three steps of a connect in the race, and returns the generation read |
| `NtripInput.NtripInputSource.Install` | src/sp_rtk_base_relay/core/input_sources/ntrip_input.py:99-106 | is the install step of the race: it succeeds exactly when nobody has disconnected since the generation was read, and otherwise changes nothing |
| `NtripInput.NtripInputSource.Connect` | src/sp_rtk_base_relay/core/input_sources/ntrip_input.py:74-115 | a whole connect is a run of the race: True exactly when the stream was accepted and no disconnect overtook it, and then its bytes wait; otherwise nothing is installed |
| `NtripInput.NtripInputSource.ReadData` | src/sp_rtk_base_relay/core/input_sources/ntrip_input.py:175-246 | one read in each of its branches: waiting bytes first, quiet, timed out, broken, closed, corrupt, ended, data; the decoder's fields are exact in all of them, and a lost connection is the losing steps of the race |
| `ConnectRace.PlacesStep` | src/sp_rtk_base_relay/core/input_sources/ntrip_input.py:74-165 | every step of connect, disconnect and read keeps each opened socket in exactly one place |
| `ConnectRace.ConsistentStep` | src/sp_rtk_base_relay/core/input_sources/ntrip_input.py:89-106 | every step keeps: connected means installed, nothing waits without a socket, nothing is installed during a connect, and the generation tells whether a disconnect came between |
| `ConnectRace.ConnectRaceSafety` | src/sp_rtk_base_relay/core/input_sources/ntrip_input.py:89-106 | in every interleaving with one connecting thread these hold, and a connect with its socket in hand returns True if and only if no disconnect took the lock since it read the generation |
| `ConnectRace.NothingLeaks` | src/sp_rtk_base_relay/core/input_sources/ntrip_input.py:248-256 | with nobody at work, the installed socket is the only one not closed |
| `ConnectRace.EarlyDisconnectUnnoticed` | src/sp_rtk_base_relay/core/input_sources/ntrip_input.py:89-91 | a disconnect before the generation is read goes unnoticed: the connect still installs its socket |
| `MessageFilter.Configure` | src/sp_rtk_base_relay/core/message_filter.py:46-63 | construction succeeds exactly for the valid configurations |
| `MessageFilter.FilterFrames` | src/sp_rtk_base_relay/core/message_filter.py:183-215 | the loop returns exactly the data of the frames that pass, in order |
| `MessageFilter.ListsSelect` | src/sp_rtk_base_relay/core/message_filter.py:178-181 | an allowlist lets through the data of exactly the frames whose number is listed, a blocklist of exactly the others, each in order |
| `MessageFilter.ListsAreComplements` | src/sp_rtk_base_relay/core/message_filter.py:178-181 | an allowlist and a blocklist of the same numbers share all frames out between them |
| `MessageFilter.PassAllPasses` | src/sp_rtk_base_relay/core/message_filter.py:197-198 | pass_all passes every frame's data |
| `MessageFilter.AcceptedAppend` | src/sp_rtk_base_relay/core/message_filter.py:203-207 | filtering two batches is filtering them together |
| `FrameSubscription.FrameSubscriber.constructor` | src/sp_rtk_base_relay/core/frame_subscription.py:44-54 | starts open and empty with no drops |
| `FrameSubscription.FrameSubscriber.Offer` | src/sp_rtk_base_relay/core/frame_subscription.py:71-88 | queues an open, wanted frame if there is room, counts a drop if there is none, and otherwise changes nothing |
| `FrameSubscription.FrameSubscriber.GetFrame` | src/sp_rtk_base_relay/core/frame_subscription.py:90-102 | takes the front entry, if any |
| `FrameSubscription.FrameSubscriber.Drain` | src/sp_rtk_base_relay/core/frame_subscription.py:104-118 | returns queued frames in order up to the limit; what it returned and what stays is what was queued |
| `FrameSubscription.FrameSubscriber.Close` | src/sp_rtk_base_relay/core/frame_subscription.py:129-141 | closes once, leaving a wake-up if there is room |
| `FrameSubscription.SoundForLife` | src/sp_rtk_base_relay/core/frame_subscription.py:71-141 | over any calls: the wanted frames offered while open are exactly those queued plus those counted as dropped, the queued ones are an in-order part of them, the reader gets these in that order and each at most once, the bound holds, and nothing changes in any of it after close |
| `FrameSubscription.WantedFromCalls` | src/sp_rtk_base_relay/core/frame_subscription.py:71-88 | these wanted frames are the ones of the wanted numbers among all offers before the first close |
| `FrameSubscription.FirstAreQueued` | src/sp_rtk_base_relay/core/frame_subscription.py:71-88 | of the wanted frames offered to an open subscription that nobody reads the first are queued, as many as there is room for, and the others are counted as dropped |
| `SubscriberStream.SubscriberReadsStream` | src/sp_rtk_base_relay/core/broadcast_hub.py:673-677 | hub and subscription together, for any stream: what the reader has got and can still get is an in-order part of the wanted frames of the stream up to a close, the drop counter is exactly how many are missing, and without a bound none is |
| `SubscribeStop.WatchedStep` | src/sp_rtk_base_relay/core/broadcast_hub.py:323-347 | every step of adding, closing and stopping keeps each open subscription attached to a hub that will reach it, or about to be closed, unless a stop has failed |
| `SubscribeStop.NoneLeftOpen` | src/sp_rtk_base_relay/core/broadcast_hub.py:432-468 | in every interleaving: once the hub is stopped, all stops have collected, none has failed, and the subscription's close calls have returned, it is closed and detached |
| `SubscribeStop.LeftOpenByFailure` | src/sp_rtk_base_relay/core/broadcast_hub.py:445-453 | a run in which a stop fails before it collects: the subscription stays open and attached to a stopped hub with nobody about to close it, and a further stop does nothing |
| `SubscribeStop.DropsAreRejections` | src/sp_rtk_base_relay/core/broadcast_hub.py:355-361 | in every interleaving the reported drop total never falls, and equals all full-queue rejections but those counted after the subscription was detached |
| `SubscribeStop.UninterruptedIsExact` | src/sp_rtk_base_relay/core/broadcast_hub.py:355-361 | with each offer as one step the total is exact |
| `SubscribeStop.NoDropsOnceClosed` | src/sp_rtk_base_relay/core/frame_subscription.py:71-88 | once a subscription is closed and no offer that found it open is under way, no run adds to its drops |
| `SubscribeStop.LateDropForgotten` | src/sp_rtk_base_relay/core/frame_subscription.py:80-87 | an offer split by a close can lose a drop: a concrete run |
| `SubscriptionSteps.Add` | src/sp_rtk_base_relay/core/broadcast_hub.py:323-339 | adding a subscription to the hub object is the adding steps of the race, accepted exactly while the hub runs |
| `SubscriptionSteps.Close` | src/sp_rtk_base_relay/core/frame_subscription.py:129-141 | a subscription that closes itself and so leaves the hub object is the closing steps of the race |
| `SubscriptionSteps.Offer` | src/sp_rtk_base_relay/core/frame_subscription.py:71-88 | an offer to an attached subscription is the offer step of the race, full exactly when a wanted frame finds no room |
| `SubscriptionSteps.Stop` | src/sp_rtk_base_relay/core/broadcast_hub.py:432-485 | a stop of the hub object is the stopping steps of the race for every subscription, or the failing ones; the reported totals agree throughout |
| `DestinationRun.SoundStep` | src/sp_rtk_base_relay/core/destinations/base_destination.py:114-290 | every step, with any number of loops alive, keeps: each item offered is in exactly one place, the queue keeps its bound, the wire since the last connect holds the end of what was sent |
| `DestinationRun.Ledger` | src/sp_rtk_base_relay/core/destinations/base_destination.py:114-290 | in every reachable state: offered = sent + dropped + failed + cleared + discarded + queued + in the loops' hands, the bound holds, what was sent is a duplicate-free part of what was offered, and the wire is the end of it |
| `DestinationOrder.OrderKept` | src/sp_rtk_base_relay/core/destinations/base_destination.py:178-290 | in every run in which no start comes while an earlier loop is alive, what is sent is an in-order part of what is offered |
| `DestinationOrder.NewestIsDropped` | src/sp_rtk_base_relay/core/destinations/base_destination.py:114-135 | of data offered while nobody reads, the oldest stays, as much as there is room for, and the newest is dropped and counted |
| `DestinationService.SendsAll` | src/sp_rtk_base_relay/core/destinations/base_destination.py:234-265 | with a connection that lasts, one loop sends everything in its queue, in order |
| `DestinationService.PassConnects` | src/sp_rtk_base_relay/core/destinations/base_destination.py:267-290 | a pass that makes the connection sends the item in hand and clears what waited behind it |
| `DestinationService.DropsAll` | src/sp_rtk_base_relay/core/destinations/base_destination.py:247-252 | without a connection and without getting one, it drops and counts everything, and goes on |
| `DestinationService.PassEnds` | src/sp_rtk_base_relay/core/destinations/base_destination.py:234-245 | a pill, or a cleared flag, ends the loop; an empty queue changes nothing |
| `DestinationRisk.OrderLostIff` | src/sp_rtk_base_relay/core/destinations/base_destination.py:226-290 | while a destination runs undisturbed with nothing overtaken so far, data can be sent out of order if and only if two loops are alive and two outlive the pills at the front, or one can clear the pills away, or two are about to send |
| `DestinationRisk.OrderLostIffTwo` | src/sp_rtk_base_relay/core/destinations/base_destination.py:137-158 | while a destination runs and its queue may be cleared from outside, with nothing overtaken so far, data can be sent out of order if and only if two loops are alive |
| `DestinationRisk.OverlapLosesOrder` | src/sp_rtk_base_relay/core/destinations/base_destination.py:178-222 | conversely, every run in which a start comes while an earlier loop is alive can, from some point on, be continued so that data is sent out of order, with nobody clearing the queue from outside |
| `DestinationRisk.OutOfOrder` | src/sp_rtk_base_relay/core/destinations/base_destination.py:178-222 | a run with a restart behind a join that gave up sends item 1 before item 0 |
| `DestinationStop.StrandedIff` | src/sp_rtk_base_relay/core/destinations/base_destination.py:234-245 | a running destination that nobody stops can lose all its loops if and only if it has none, or its queue holds at least as many pills as loops are alive and no loop is clearing it |
| `DestinationStop.RestartBehindPill` | src/sp_rtk_base_relay/core/destinations/base_destination.py:203-212 | a restart with a pill left behind by the previous stop is reachable |
| `DestinationStop.StopRaisesIff` | src/sp_rtk_base_relay/core/destinations/base_destination.py:203-212 | a stop that has cleared the flag can end with an exception, neither joining nor disconnecting, if and only if the queue has a bound |
| `DestinationStop.StopCompletes` | src/sp_rtk_base_relay/core/destinations/base_destination.py:203-222 | if nothing is put into the queue between making room and the second put, the stop goes on to its end and disconnects, whatever else happens meanwhile |
| `DestinationStop.RaisingStop` | src/sp_rtk_base_relay/core/destinations/base_destination.py:203-212 | a run to the exception: it leaves the destination stopped and still connected, without a loop and without a pill, and a further stop does nothing |
| `DestinationStop.RaisedBySecondStop` | src/sp_rtk_base_relay/core/destinations/base_destination.py:203-212 | another run to it, without any offer in between: a restart and a second stop, whose pill takes the room |
| `BaseDestination.RepeatedlyDrained` | src/sp_rtk_base_relay/core/destinations/base_destination.py:146-152 | as many removals as there are entries empty the queue and move exactly the queued data to the cleared |
| `BaseDestination.PassIsRun` | src/sp_rtk_base_relay/core/destinations/base_destination.py:234-290 | one undisturbed pass of the loop, as a run of atomic steps, comes to what the closed form says |
| `BaseDestination.StopWithRoom` | src/sp_rtk_base_relay/core/destinations/base_destination.py:201-205 | an undisturbed stop appends a pill to a queue with room |
| `BaseDestination.StopWhenFull` | src/sp_rtk_base_relay/core/destinations/base_destination.py:206-212 | an undisturbed stop of a full queue gives up the oldest entry for the pill |
| `BaseDestination.StopOvertaken` | src/sp_rtk_base_relay/core/destinations/base_destination.py:206-212 | if an offer takes that room first, the stop ends with an exception: the offered data is queued, no pill is, and the connection stays |
| `BaseDestination.BaseDestination.constructor` | src/sp_rtk_base_relay/core/destinations/base_destination.py:91-98 | starts stopped, enabled and empty |
| `BaseDestination.BaseDestination.Enqueue` | src/sp_rtk_base_relay/core/destinations/base_destination.py:114-135 | is the offer step; True exactly when the queue was not full |
| `BaseDestination.BaseDestination.ClearQueue` | src/sp_rtk_base_relay/core/destinations/base_destination.py:137-158 | is a run of removal steps that ends empty and returns how many, whenever it is called |
| `BaseDestination.BaseDestination.Start` | src/sp_rtk_base_relay/core/destinations/base_destination.py:171-189 | is the start step: another loop, however many are alive |
| `BaseDestination.BaseDestination.Stop` | src/sp_rtk_base_relay/core/destinations/base_destination.py:191-222 | is the stop steps, with or without an offer in between; raises exactly when the queue was full and an offer came |
| `BaseDestination.BaseDestination.StopFull` | src/sp_rtk_base_relay/core/destinations/base_destination.py:206-212 | the part for a full queue: the oldest entry goes, and the pill or the overtaking data comes |
| `BaseDestination.BaseDestination.AttemptConnect` | src/sp_rtk_base_relay/core/destinations/base_destination.py:267-290 | empties the queue exactly when the attempt connects; attempts = successes + failures |
| `BaseDestination.BaseDestination.Deliver` | src/sp_rtk_base_relay/core/destinations/base_destination.py:254-263 | is the send step; an error is counted and disconnects |
| `BaseDestination.BaseDestination.Handle` | src/sp_rtk_base_relay/core/destinations/base_destination.py:247-263 | data in hand is sent, failed or dropped, after connecting if need be; errors grow by exactly the raises |
| `BaseDestination.BaseDestination.OnePass` | src/sp_rtk_base_relay/core/destinations/base_destination.py:234-265 | one pass of the loop is a run of the loop's atomic steps |
| `HubRun.CoherentStep` | src/sp_rtk_base_relay/core/broadcast_hub.py:303-347 | every step (chunk, add, remove, enable, subscribe, unsubscribe, start, stop, failing stop) keeps the cached flag equal to its definition and the buffer empty off the parsing path and otherwise a waiting tail |
| `HubRun.WithinRunLasts` | src/sp_rtk_base_relay/core/broadcast_hub.py:465-468 | as long as no stop fails, a hub that is stopped has no subscribers |
| `HubRun.SubscribersOutliveStop` | src/sp_rtk_base_relay/core/broadcast_hub.py:432-468 | a failing stop breaks that exactly when somebody is attached; a further stop changes nothing then, and after a restart the subscribers are attached as before |
| `HubRun.FlagAndBuffer` | src/sp_rtk_base_relay/core/broadcast_hub.py:136-138 | in every reachable state the flag is exact, and the buffer is empty or starts with 0xD3 and has at most 1028 bytes |
| `HubRun.NonInterference` | src/sp_rtk_base_relay/core/broadcast_hub.py:650-695 | over any run in which it is not removed a destination becomes what it would become alone, whatever others do; of several with one name this holds of the first, and of all if nothing switches that name |
| `HubRun.PassAllGetsEveryChunk` | src/sp_rtk_base_relay/core/broadcast_hub.py:650-685 | an enabled pass_all destination is offered exactly the chunks of the run, in order |
| `HubRun.FilteredGetsItsFrames` | src/sp_rtk_base_relay/core/broadcast_hub.py:686-695 | an enabled filtering destination is offered exactly its filter applied to the parse of the buffer it found and all chunks since; the filtered counter grows by precisely the rest |
| `HubRun.ListedFramesOnly` | src/sp_rtk_base_relay/core/broadcast_hub.py:686-695 | with an allowlist these are exactly the stream's frames with listed numbers, with a blocklist exactly the others, in order |
| `HubRun.DisabledGetsNothing` | src/sp_rtk_base_relay/core/broadcast_hub.py:650-656 | a disabled destination is offered nothing in any run, and nothing is counted for it |
| `HubRun.SwitchedOff` | src/sp_rtk_base_relay/core/broadcast_hub.py:244-281 | a destination that is stopped is disabled and offered nothing from then on; a restarted one is enabled, and no other changes |
| `HubRun.SubscriberGetsEveryFrame` | src/sp_rtk_base_relay/core/broadcast_hub.py:673-677 | an attached subscriber is offered every frame of the stream, each counted once by the hub, which keeps the stream's tail |
| `RelayChain.AcceptedAreFrames` | src/sp_rtk_base_relay/core/message_filter.py:199-215 | what a filter accepts of genuine frames are frames again, with the numbers they had |
| `RelayChain.FilteredChain` | src/sp_rtk_base_relay/core/broadcast_hub.py:686-695 | two relays in a row, for any stream and any buffer: what a filtering destination is offered during any run, sent over one connection and received in any pieces, reaches the second relay as exactly the frames of the stream that the filter lets through, and leaves nothing in its buffers |
| `RelayChain.PassAllChain` | src/sp_rtk_base_relay/core/broadcast_hub.py:650-685 | what a pass_all destination is offered reaches the second relay as the same stream: same frames, same numbers, same tail |
| `RelayChain.WireChain` | src/sp_rtk_base_relay/core/destinations/base_destination.py:114-290 | with the destination's threads in between, drops, clears and failures included: the relay at the other end sees exactly the frames sent since the last connect, a duplicate-free part of those offered, and an in-order part if no start comes while an earlier loop is alive |
| `RelayChain.HubToWire` | src/sp_rtk_base_relay/core/broadcast_hub.py:686-695 | hub, queue, threads and wire together, for any stream and any life of a filtering destination: the other relay sees, for what was sent since the last connect, exactly the frames of the stream that pass the filter at the places these items were offered at, each place at most once, and in the stream's order if no start comes while an earlier loop is alive |
| `BroadcastHub.BroadcastHub.constructor` | src/sp_rtk_base_relay/core/broadcast_hub.py:109-138 | starts stopped with an empty buffer and an exact flag |
| `BroadcastHub.BroadcastHub.ExtractCompleteRtcmFrames` | src/sp_rtk_base_relay/core/broadcast_hub.py:713-760 | the loop over the buffer field returns the parse of the whole buffer, keeps its tail and counts its frames |
| `BroadcastHub.BroadcastHub.ParseFrames` | src/sp_rtk_base_relay/core/broadcast_hub.py:697-711 | appends the chunk and extracts |
| `BroadcastHub.BroadcastHub.DistributeRaw` | src/sp_rtk_base_relay/core/broadcast_hub.py:650-656 | offers the chunk to each enabled destination and to no other |
| `BroadcastHub.BroadcastHub.OfferFrames` | src/sp_rtk_base_relay/core/broadcast_hub.py:673-677 | every subscriber is offered every frame in order, and becomes what those offers make of it |
| `BroadcastHub.BroadcastHub.Sort` | src/sp_rtk_base_relay/core/broadcast_hub.py:679-695 | one destination's share of a chunk: nothing, the chunk, or its accepted frames, with the rest counted |
| `BroadcastHub.BroadcastHub.FindDestination` | src/sp_rtk_base_relay/core/broadcast_hub.py:283-296 | finds the first destination of a name |
| `BroadcastHub.BroadcastHub.FindSubscriber` | src/sp_rtk_base_relay/core/broadcast_hub.py:341-347 | finds the place of a subscription, or its absence |
| `BroadcastHub.BroadcastHub.Detach` | src/sp_rtk_base_relay/core/broadcast_hub.py:341-347 | takes an attached subscription out and keeps its drops in the total |
| `BroadcastHub.BroadcastHub.DistributeFiltered` | src/sp_rtk_base_relay/core/broadcast_hub.py:658-695 | subscribers get all frames; each destination gets the chunk or its accepted frames |
| `BroadcastHub.BroadcastHub.Broadcast` | src/sp_rtk_base_relay/core/broadcast_hub.py:636-641 | one chunk is the chunk step of the state machine |
| `BroadcastHub.BroadcastHub.RecalculateNeedsParsing` | src/sp_rtk_base_relay/core/broadcast_hub.py:303-317 | sets the flag to its definition and drops the partial frame on leaving the parsing path |
| `BroadcastHub.BroadcastHub.AddDestination` | src/sp_rtk_base_relay/core/broadcast_hub.py:184-212 | is the add step, refused exactly when the name is taken; started if the hub runs |
| `BroadcastHub.BroadcastHub.RemoveDestination` | src/sp_rtk_base_relay/core/broadcast_hub.py:214-242 | is the remove step; the removed one is stopped and no other is touched |
| `BroadcastHub.BroadcastHub.SetDestinationEnabled` | src/sp_rtk_base_relay/core/broadcast_hub.py:244-281 | is the enable step on the destination of that name, if there is one |
| `BroadcastHub.BroadcastHub.AddFrameSubscriber` | src/sp_rtk_base_relay/core/broadcast_hub.py:323-339 | is the subscribe step; refused and closed unless the hub runs; the drop total does not fall |
| `BroadcastHub.BroadcastHub.RemoveFrameSubscriber` | src/sp_rtk_base_relay/core/broadcast_hub.py:341-347 | is the unsubscribe step; unknown ones are ignored; the drop total stays the same |
| `BroadcastHub.BroadcastHub.Release` | src/sp_rtk_base_relay/core/frame_subscription.py:129-141 | a subscription is closed and detaches itself, and its drops stay in the total |
| `BroadcastHub.BroadcastHub.FrameSubscriberDrops` | src/sp_rtk_base_relay/core/broadcast_hub.py:355-361 | the sum over removed and attached subscribers |
| `BroadcastHub.BroadcastHub.Start` | src/sp_rtk_base_relay/core/broadcast_hub.py:367-408 | is the start step if the input connects, and every destination is started; otherwise nothing changes |
| `BroadcastHub.BroadcastHub.Stop` | src/sp_rtk_base_relay/core/broadcast_hub.py:432-485 | is the stop step: destinations stopped, subscriptions closed and detached, buffer cleared, no drop forgotten; where the second put of the pill fails it is the failing stop, which leaves destinations and subscriptions as they are |
| `Backoff.FirstWait` | src/sp_rtk_base_relay/core/destinations/ntrip_destination.py:94-96 | the first wait is the initial delay |
| `Backoff.NextWait` | src/sp_rtk_base_relay/core/destinations/ntrip_destination.py:249-254 | multiplying and capping the stored delay gives the next wait, min(initial * multiplier^(k+1), maximum) |
| `Backoff.WaitsGrow` | src/sp_rtk_base_relay/core/input_sources/base_input.py:17-28 | waits are positive, never shrink and never exceed the maximum |
| `Reconnect.WaitsNeverShrink` | src/sp_rtk_base_relay/core/broadcast_hub.py:549-590 | within one reconnect call the waits never get shorter, persistent failures or not |
| `Reconnect.CountedByReason` | src/sp_rtk_base_relay/core/broadcast_hub.py:592-604 | each reason's counter grows by exactly the typed failures of that reason; failures without a type count as connect |
| `Reconnect.Reconnector.RecordInputFailure` | src/sp_rtk_base_relay/core/broadcast_hub.py:592-604 | counts one failure under its reason |
| `Reconnect.Reconnector.ReconnectInput` | src/sp_rtk_base_relay/core/broadcast_hub.py:542-590 | wait k is min(initial * multiplier^k, maximum) until the first persistent failure and the maximum from then on; attempts less successes grow by the failures recorded, whatever the outcomes |
| `NtripDestination.AgreesStep` | src/sp_rtk_base_relay/core/destinations/ntrip_destination.py:194-254 | every step keeps the stored delay and next-connect time in agreement with the history |
| `NtripDestination.RetrySpacing` | src/sp_rtk_base_relay/core/destinations/ntrip_destination.py:224-259 | over every run: an attempt after failure number k of a row starts no earlier than min(initial * multiplier^k, maximum) after it, one after a send error at least 2 s after it, and while connected the stored delay is the initial one |
| `NtripDestination.AttemptedWhenDue` | src/sp_rtk_base_relay/core/destinations/ntrip_destination.py:224-247 | and in every run an attempt without a connection is made as soon as that time has come, with the outcome of the connection, and changes nothing before |
| `NtripDestination.NtripDestination.AttemptConnect` | src/sp_rtk_base_relay/core/destinations/ntrip_destination.py:224-247 | is the attempt step: skipped before its time, else connected or backed off |
| `NtripDestination.NtripDestination.SendData` | src/sp_rtk_base_relay/core/destinations/ntrip_destination.py:177-200 | on success the socket takes the chunk-encoded data (raw for version 1); on an error the next attempt is put off by 2 s |
| `NtripDestination.NtripDestination.UpdateRetryDelay` | src/sp_rtk_base_relay/core/destinations/ntrip_destination.py:249-254 | multiplies the delay and caps it |
| `NtripDestination.NtripDestination.ResetRetryDelay` | src/sp_rtk_base_relay/core/destinations/ntrip_destination.py:256-259 | the initial delay, and no waiting |
| `NtripDestination.NtripDestination.Stop` | src/sp_rtk_base_relay/core/destinations/ntrip_destination.py:168-175 | is the stop step: the connection is given up, the backoff kept |
| `NtripDestination.NtripDestination.constructor` | src/sp_rtk_base_relay/core/destinations/ntrip_destination.py:94-96 | starts unconnected with the initial delay and no waiting |
| `NtripDestination.NtripDestination.Start` | src/sp_rtk_base_relay/core/destinations/ntrip_destination.py:108-112 | is the start step: initial delay, and a connect allowed at once; nothing when it runs already |

## Left out

- Sockets, TLS, serial ports, Bluetooth, DNS and threads themselves: a receive call is an arbitrary
  piece, a connection attempt or a send an arbitrary outcome, a thread its atomic steps.
- The outcome of a caster's reply (`_classify_status`, `_status_code`, `_parse_headers`): all are
  functions of the status and header bytes, which are proved independent of the cutting where they are.
- Plain counters of the hub (`bytes_received`, `chunks_received`, `chunks_distributed`) and time stamps.
- Request text, Basic authentication, log messages, events and metrics: easy members.
- Wall-clock deadlines of the reply reader and the data timeout: a receive call may be quiet, a read may
  be stale, and nothing says when; the no-data watchdog is not modelled.
- Rounding of floating-point delays: delays are real numbers.
- `RTCMClient`, `SurePathDestination`, `TcpServerDestination`, `main.py`, `config.py` and the status
  snapshots: plumbing, library behaviour, or easy members.
- `extract_message_length` and the `validate_crc=False` variants: easy members, not used on the path.
- AnyPath, WholePath, WholeDownload, InputDelivers, PassAllChain and EncodedReads: messages are shorter
  than 16^255 bytes, so that their size lines fit the decoder's limit.
- NothingLost: where the reply reader itself reports a bad or timed-out reply there is nothing to compare.
- Ledger: a start and a stop test and set the running flag in one step, so two starts or two stops that
  both pass the test before either sets the flag are not modelled; the counters are modelled as updated
  in one step.
- WireChain: a send is one step. One that fails may have put part of a message on the wire before the
  connection is given up, and two live loops could mix parts of their messages on one socket; neither is
  modelled. The connection is one with chunked coding.
- Broadcast: the handling of one chunk is one step, so the unlocked read of the parse flag and an
  in-progress chunk during a removal are not modelled; the input queue between the hub's two threads, and
  the chunks it drops, are not either.
- Stop: the method of the destination models a stop that at most one offer interferes with; the method
  of the hub one that either ends early by its own put or runs undisturbed. A destination whose stop
  raises within the hub's is the same failing step in `HubRun`, but not in the hub's method. The
  interleavings are those of `DestinationRun`, `DestinationStop` and `SubscribeStop`, of which the calls of
  the objects are undisturbed runs. Joins and their
  timeouts, the input's disconnect and the draining of the input queue are left out.
- BroadcastHub.constructor: the destinations are different objects; one object listed twice is not
  modelled.
- Close: in the object the subscription does not detach itself; `BroadcastHub.Release` closes and detaches
  it, and `SubscribeStop` models the order of the steps within close.
- AddFrameSubscriber: a subscription that is attached already is not attached a second time, as its only
  caller makes a new one each time.
- ConnectRaceSafety: one connecting and reading thread at a time, any number of disconnecting ones.
- RetrySpacing: one loop thread attempts and sends. A send that finds the socket already closed by a stop
  sets no delay, as in the program.
