# PointSub, verified

A Dafny model of the wire stack of PointSub and of the state machines that ride on it, with proofs of
what the stack promises. `dafny verify dfyconfig.toml` checks everything.

The layers, bottom up:

| file | models |
|---|---|
| `bytes.dfy`, `sizes.dfy`, `io.dfy` | bytes, big-endian fields, flag words; shared sizes; `io.Reader` as a finite script of blocks, `io.Writer` as a sink that may break, `io.ReadFull` |
| `frames.dfy`, `frame_theory.dfy` | the frame codec with its two header formats |
| `advanced_frames.dfy`, `frame_wire.dfy` | the frame processor with compression and error recovery; the bytes of a frame and what its checksum guards |
| `processors.dfy` | either frame processor behind one interface, and when a reader understands a writer |
| `streams.dfy`, `stream_theory.dfy`, `stream_runs.dfy` | the stream protocol: which frames a reader becomes, what a receiver makes of them; many streams over one connection |
| `tracker.dfy`, `tracker_runs.dfy`, `tracker_counts.dfy` | the progress tracker, its runs, and what it has on record |
| `transporter.dfy`, `transport_theory.dfy` | the message transporter: streams, error handling and tracking together; how a receive that breaks ends |
| `buffered.dfy`, `largemsg.dfy` | buffered readers and writers, the large-message connection and strategy |
| `strategies.dfy` | the small, medium and huge strategies |
| `messages.dfy`, `message_theory.dfy` | the packed message format |
| `listener.dfy` | the listener as a system of atomic steps |
| `ranking.dfy`, `sizer.dfy`, `selector.dfy` | exchange sort, strategy registration and selection, scoring |
| `witnesses.dfy` | one concrete input for each promise that the code does not keep |

How the model reads the source:

- A connection's incoming side is a list of blocks of any sizes, empty ones included, the last of which
  may report an end or an error together with its bytes; an end or error is reported again by later reads.
  Every result about reading therefore holds for every way the network cuts the bytes up. An outgoing
  side takes everything, or breaks after any number of bytes.
- The checksum (CRC-32), the compressor, the error handler's advice, the selection cache's key and the
  scorers are parameters: what is proved holds for every choice of them. The compressor is asked to be
  invertible, and never to yield nothing, where a round trip is claimed.
- Time is an argument, or any integer at each reading of the clock. Floats are reals. Integer widths are
  written out where they matter: 16-, 32- and 64-bit fields, truncation, two's complement.
- Methods follow the source's loops and assignments and are proved against functions on values; the
  lemmas are about those functions.

What the proofs show to be different from what the repository's comments or documentation say, each with
the exact condition and a concrete input:

- A frame with a standard header is read back only if bit 6 of its length is clear, because the reader
  takes that bit, in the low byte of the size, for the compact flag (`FrameTheory.RoundTripDomain`); a
  frame of 0x10040 bytes comes back as one byte, without an error (`Witnesses.BitSix`).
- A stream without data is sent without complaint and refused by its receiver
  (`StreamTheory.StreamRoundTrip`, `Witnesses.EmptyStream`).
- A stream whose reader fails after some data is not closed, and the next stream on the connection is
  received as its continuation: the call reports success with both. Streams come back as themselves
  exactly if no closed one follows such a stream (`StreamRuns.BackToBack`, `StreamRuns.JoinsTheNext`,
  `Witnesses.StreamsJoined`).
- A tracked send that fails ends Completed exactly if the announced size had been sent
  (`Transport.Transporter.SendStream`, `Witnesses.BrokenSendCompleted`).
- A tracked receive that fails ends Completed exactly if its data came to 1 MiB behind some frame, as it
  does after sixteen full chunks (`Transport.Transporter.ReceiveStream`, `TransportTheory.FaultVerdict`,
  `Witnesses.BrokenReceiveCompleted`).
- A tracker stops counting when a transfer is completed: a send counts exactly what it moved if and only
  if the announced size is unknown or not reached before the last data (`TransportTheory.TallyExact`,
  `Witnesses.SentMoreThanAnnounced`); a receive stays at 1 MiB if it comes to exactly that before its last
  frame (`TransportTheory.ReceiveTallyExact`, `Witnesses.ReceivedMoreThanCounted`).
- A frame whose stored checksum happens to be zero is not guarded: other data of its length is taken for
  what was sent (`FrameWire.ReplacedData`).
- Of all calls, only the restart of a completed transfer leaves the transition table; the notice of the
  restart of a completed or failed transfer names a status it was not in (`TrackerRuns.RunEdges`,
  `Witnesses.CompletedRestarts`).
- The huge strategy compares the size with the retry count; with the default parameters it refuses every
  message of its own range (`Sizing.DefaultsRefuseHuge`, `Witnesses.HugeRefused`).
- The size score of the range without upper bound grows with the distance from it
  (`Selecting.UnboundedOutside`, `Selecting.HugeScoresTiny`), and scoring divides by zero exactly outside
  of a range whose upper bound is one below its lower (`Selecting.DividesByZero`, `Selecting.ZeroDivides`).
- Version, priority, type and flags arrive reduced mod 16, so that two of the package's own flags never
  arrive (`MessageTheory.NothingReduced`, `Witnesses.FlagLost`).
- WriteMessage sends the cached bytes of a message, even if the message was changed since, or was decoded
  from bytes with others behind it. Messages come back as they are exactly if each is intact
  (`MessageTheory.ReadBackExactly`, `Witnesses.StaleCache`, `Witnesses.TrailingByte`).
- A message with a body of 4 GiB or more is encoded, but does not come back
  (`MessageTheory.MessageRoundTrip`, `Witnesses.BodyLost`). A message with a zero timestamp, encoded at
  time zero, does come back, but has other bytes when it is encoded again at a later time
  (`MessageTheory.EncodeAgain`, `Witnesses.TimestampFilledIn`).
- Decoding accepts bytes that are not canonical: with a zero timestamp, or a checksum for an absent body
  (`MessageTheory.Canonical`, `Witnesses.StrayChecksum`). It caches trailing bytes as part of the message
  (`MessageTheory.CacheAgain`).

## Model

| member | source | states |
|---|---|---|
| `FrameTheory.RoundTripDomain` | frame_processor.go:130-404 | for every length, limit and suffix: a written frame is read back with its data, its reported flags and exactly the suffix left, if and only if its length is below 65536, or below 2^32 with bit 6 clear; otherwise the reader never returns that data |
| `FrameWire.WireLayout` | frame_processor.go:130-151 | every byte of a frame: below 64 KiB two bytes of length, the low byte of the checksum and of the flags with 0x40 set, the data; from there length, checksum and flags in four bytes each |
| `FrameWire.ReplacedData` | frame_processor.go:346-365 | if the data of a frame is replaced by data with another checksum, the reader refuses it with ErrChecksumMismatch if and only if the stored checksum is not zero |
| `FrameWire.AdvancedReplacedData` | frame_processor_impl.go:512-580 | the same of the advanced reader; with recovery it takes the other data, and decompresses that |
| `FrameWire.CompressedForm` | frame_processor_impl.go:272-306 | the compressed data goes on the wire, with FlagCompressed, if and only if compression is on, there is more than 1 KiB of data and more than a tenth is saved; else the data as it is |
| `FrameWire.CompressedSize` | frame_processor_impl.go:272-333 | how many bytes this puts on the connection |
| `ByteOrder.BigEndian` | frame_processor.go:138-150 | all fields are numbers to the base 256, most significant byte first |
| `FrameTheory.LimitsAtBothEnds` | frame_processor.go:130-190 | a frame in the domain gets across exactly if it exceeds neither end's limit; over the writer's nothing is written, over the reader's the data stays unread behind ErrFrameTooBig |
| `FrameTheory.ReaderLimit` | frame_processor.go:183-186 | whatever bytes arrive, a reader's limit changes nothing but to refuse a frame over it before its data is read |
| `FrameTheory.StandardByte` | frame_processor.go:147 | the fourth byte of a standard header carries the compact flag exactly when bit 6 of the size is set |
| `FrameTheory.ReportedKeepsFlags` | frame_processor.go:173-181 | the flags a reader reports differ from the writer's in none of the stream and compression flags |
| `FrameTheory.AnnouncedLength` | frame_processor.go:171-182 | any data a read returns has the length that its first four bytes announce |
| `FrameTheory.ReadConsumes` | frame_processor.go:271-368 | a read leaves a suffix of its input, and a successful one consumes exactly header and data |
| `FrameTheory.ReadShrinks` | frame_processor.go:283-313 | a successful read consumes at least four bytes |
| `FrameTheory.ReadExtends` | frame_processor.go:283-367 | a successful read depends on nothing behind the bytes it consumes |
| `FrameTheory.CheckedData` | frame_processor.go:346-365 | data with a nonzero stored checksum agrees with it, in one byte or in four |
| `FrameTheory.ReadBack` | frame_processor.go:204-268 | any list of frames in the domain, written in a row, is read back in order, and then the end is reported |
| `FrameTheory.StrictPrefixFails` | frame_processor.go:204-268 | no strict prefix of a frame is read as a frame |
| `FrameTheory.CutOff` | frame_processor.go:204-268 | however a run of frames is cut off, what is read is a prefix of the list of frames |
| `FrameTheory.WireInjective` | frame_processor.go:371-404 | two lists of frames with the same bytes are the same list, as far as a reader can tell |
| `Frames.FrameCodec.EncodeHeader` | frame_processor.go:130-151 | the header slice holds the compact or the standard form |
| `Frames.FrameCodec.WriteFrame` | frame_processor.go:371-404 | header and data reach the connection as one sequence, or a prefix of it if the connection breaks |
| `Frames.FrameCodec.ReadFrameWithFlags` | frame_processor.go:271-368 | over any blocks, the frame and the remaining input are those of the codec's reading function |
| `Frames.FrameCodec.ReadFrame` | frame_processor.go:204-268 | the same without the flags; the source repeats the body |
| `IO.Source.ReadFull` | frame_processor.go:206-210 | a field is complete or refused, however the bytes are cut into blocks |
| `StreamTheory.StreamRoundTrip` | message_transporter.go:320-401 | for every reader schedule, every suffix, and either frame processor at each end, with or without compression and recovery: what SendStream wrote is received as exactly the reader's data, with exactly the suffix left, if and only if there was data; otherwise it is refused as a protocol violation |
| `StreamTheory.NoFalseSuccess` | message_transporter.go:348-400 | if nothing else is written on the connection, and the sender's connection or reader failed or bytes are missing, the receiver, with either processor, reports an error and has written a prefix of the data |
| `StreamTheory.ReceiveCutOff` | message_transporter.go:431-508 | a stream that is cut off or never closed is never taken for a complete one |
| `StreamTheory.WhyCutOff` | message_transporter.go:431-443 | its receiver, if its writer takes everything, reports the connection's own error if it broke, else an end of file |
| `Processors.FailsForWant` | frame_processor_impl.go:358-580 | a read that fails on a part of a run of frames fails since the input ended too early |
| `StreamTheory.AnnouncedChunks` | message_transporter.go:303-310 | the chunk size for every announced size, and how many full reads that size then takes |
| `StreamTheory.PlanShape` | message_transporter.go:320-391 | for every reader: the frames join to its data, none exceeds a chunk, Fragmented is on exactly the first if there is data, LastFrame on exactly the last if the reader ended |
| `StreamTheory.PlanPasses` | message_transporter.go:303-310 | every planned frame, compressed or not, lies in the domain of the frame codec and within both ends' limits |
| `StreamTheory.ReceiveFrames` | message_transporter.go:431-508 | any frames that open and close a stream are received joined, and what follows is untouched |
| `StreamRuns.BackToBack` | message_transporter.go:303-518 | for any number of streams on one connection, with any chunk sizes, readers and endings: call by call the receiver gets the data since the last closed stream, in order; each closed stream comes back as itself if and only if none follows one whose reader failed after some data |
| `StreamRuns.JoinsTheNext` | message_transporter.go:393-468 | a stream whose reader failed and the next are received as one, and the receiver takes it for a success with other data than the second's if and only if the first had any |
| `StreamRuns.OneCall` | message_transporter.go:431-508 | one call takes everything up to the next closing frame, of however many streams |
| `StreamRuns.WriterBreaks` | message_transporter.go:463-475 | a receiver's writer that breaks has got all it takes, and the connection is behind the frame that did not fit |
| `StreamRuns.Recovers` | message_transporter.go:447-475 | each frame that remains of such a stream costs one later call a protocol violation, and then the connection is at the next stream |
| `StreamTheory.EmitPrefix` | message_transporter.go:348-356 | a connection that breaks has received a prefix of the frames, and all of them exactly if there was no error |
| `Transport.Transporter.SendStream` | message_transporter.go:246-402 | the bytes on the connection; what the caller is told of an error, which is nothing exactly if there is none or it is ignored; if none is ignored, success exactly if all frames are on the connection and the reader ended; the final status and the count of the tracked transfer |
| `Transport.Transporter.SendBlocks` | message_transporter.go:320-401 | the send loop emits the planned frames for every reader and every breaking connection |
| `Transport.Transporter.ReceiveStream` | message_transporter.go:246-518 | the bytes handed to the writer, the remaining input, what the caller is told, and exactly which final status and count the transfer gets, through every re-estimate of the size |
| `TransportTheory.CutOffIsTold` | message_transporter.go:246-443 | if the error handler ignores nothing, a receiver never reports success on a stream that was cut off or never closed |
| `Transport.Transporter.HandleError` | message_transporter.go:246-267 | no error or an ignored one is a success; else the caller gets exactly that error, for a retry exactly if that is advised |
| `TransportTheory.TallyExact` | message_transporter.go:358-365 | a sender's tracker has counted exactly the bytes moved if and only if the announced size is unknown or was not reached before the last of them; it never counts more |
| `TransportTheory.AnnouncedIsCounted` | message_transporter.go:358-365 | a stream no longer than announced is counted exactly |
| `TransportTheory.ThroughOnWire` | message_transporter.go:348-365 | the bytes moved are the data of the frames of which all bytes are on the connection |
| `TransportTheory.ReceiveTallyExact` | message_transporter.go:477-497 | a receiver's tracker has counted exactly the bytes of a stream received without an error, or 1 MiB if they came to that before the last frame |
| `TransportTheory.ReceiveFault` | message_transporter.go:431-508 | what a receiver has of a stream that breaks: the data of the frames before, and the error of the frame that could not be read |
| `TransportTheory.FaultVerdict` | message_transporter.go:431-508 | a tracked receive of a stream that breaks ends Completed if and only if the frames before came to exactly 1 MiB at some point, else Failed |
| `TransportTheory.FullChunks` | message_transporter.go:480-484 | full chunks of a length that divides 1 MiB come to it |
| `Transport.Transporter.ReceiveFrames` | message_transporter.go:431-508 | the receive loop computes the receiving function, and settles the transfer exactly: by whether the stream was opened, and whether its first estimate was met |
| `Transport.Transporter.Send` | message_transporter.go:193-220 | one frame; what the caller is told; a tracked message ends Completed with its length counted, or Failed with nothing, and other transfers are untouched |
| `Transport.Transporter.Receive` | message_transporter.go:223-243 | one frame; what the caller is told; a message is tracked exactly if it is over 1 MiB, and is Completed with its length counted when the call returns |
| `TrackerRuns.RunEdges` | progress_tracker.go:242-304 | in every run each call moves each transfer along edges of the transition table if and only if it does not restart a completed one, and its notices tell that path if and only if it does not restart a completed or failed one; only cleanup removes a record, and none that is active or recent |
| `TrackerRuns.CompletedStays` | progress_tracker.go:262-282 | Completed is left only by a restart or by cleanup |
| `TrackerRuns.CompletionOnce` | progress_tracker.go:399-413 | in every run an announced record is completed, and completions are announced at most once per successful start |
| `TrackerCounts.CountsHold` | progress_tracker.go:258-416 | in every run a record holds the number of the last accepted update since its last start, the size of the last start or resize, the error it was failed with, and 100 percent once an update reached the size, else that number in percent of the size |
| `TrackerCounts.CallsFollowTable` | progress_tracker.go:307-563 | in terms of the transition table, when each call is accepted and which status it leads to; a refused call changes nothing |
| `TrackerCounts.ReachedFrom` | progress_tracker.go:696-726 | the transition table read backwards |
| `TrackerCounts.ProgressTold` | progress_tracker.go:370-410 | progress is notified exactly at steps of 10, 5 or 1 percent by size, and when the size is reached |
| `TrackerCounts.Touched` | progress_tracker.go:348-366 | after an accepted call but a resize, a transfer that is not over was touched within the last 200 ms |
| `TrackerCounts.CleanupDrops` | progress_tracker.go:244-254 | cleanup drops exactly the transfers that are over and were touched longer ago than records are kept |
| `Tracking.ProgressTracker.StartTracking` | progress_tracker.go:258-304 | a new record, a restarted one, or a refusal |
| `Tracking.ProgressTracker.UpdateProgress` | progress_tracker.go:307-416 | counts, percentage, notices and both possible status changes |
| `Tracking.ProgressTracker.UpdateStatus` | progress_tracker.go:419-442 | a change along the table or a refusal |
| `Tracking.ProgressTracker.StopTracking` | progress_tracker.go:445-465 | everything but Completed and Failed becomes Cancelled |
| `Tracking.ProgressTracker.PauseTracking` | progress_tracker.go:487-509 | from Transferring or Initializing only |
| `Tracking.ProgressTracker.ResumeTracking` | progress_tracker.go:512-534 | from Paused only |
| `Tracking.ProgressTracker.MarkFailed` | progress_tracker.go:537-563 | Failed with its error, unless Completed or Cancelled |
| `Tracking.ProgressTracker.UpdateTotalSize` | progress_tracker.go:768-795 | the size and percentage change, the status does not |
| `Tracking.ProgressTracker.CleanupTick` | progress_tracker.go:244-254 | exactly the expired records are dropped |
| `AdvancedFrames.AdvancedRoundTrip` | frame_processor_impl.go:272-333 | between processors that share codec and compressor, data comes back exactly if the caller left the compression flag alone, or the data was compressed, or is empty or its own decompression |
| `Processors.ReadPacked` | frame_processor_impl.go:219-580 | a frame written by either processor reaches any reader that understands it, before any suffix, with its data and stream flags, compressed or not |
| `Processors.FirstOfRun` | frame_processor_impl.go:358-580 | a read that succeeds on a part of a run of frames has found the first of them, and leaves the rest of that part |
| `Processors.OfferBits` | frame_processor_impl.go:308-333 | what reaches the connection is the packed frame, or a prefix of it if the connection breaks |
| `Processors.Processor.WriteFrame` | frame_processor_impl.go:219-355 | writing with either processor |
| `Processors.Processor.ReadFrameWithFlags` | frame_processor_impl.go:358-580 | reading with either processor |
| `AdvancedFrames.AdvancedExtends` | frame_processor_impl.go:398-580 | a successful read of the advanced reader, too, depends on nothing behind the bytes it consumes |
| `AdvancedFrames.FlagAgrees` | frame_processor_impl.go:290-306 | the compression flag is added exactly when the payload was replaced, and then the payload is below 90 percent |
| `AdvancedFrames.ReadsLikeBase` | frame_processor_impl.go:398-580 | the advanced reader agrees with the basic one but for decompression, unless it lets a corrupt frame pass, which the basic one refuses |
| `AdvancedFrames.AdvancedFrameProcessor.WriteFrame` | frame_processor_impl.go:219-355 | the bytes written and every counter, a compression that was tried and dropped included |
| `AdvancedFrames.AdvancedFrameProcessor.ReadFrameWithFlags` | frame_processor_impl.go:358-580 | the frame read, and exactly which counters grow, with and without recovery |
| `AdvancedFrames.AdvancedFrameProcessor.CompressData` | frame_processor_impl.go:147-186 | the compressed form only if it is shorter |
| `Buffered.BufWriter.Write` | largemsg.go:229-233 | wire and buffer together hold the earlier bytes and the first n of the slice, whatever fails |
| `Buffered.BufReader.Read` | largemsg.go:152-163 | the pending bytes in order, an end only behind the last |
| `LargeMessages.LargeMessageConn.Write` | largemsg.go:197-273 | a plain write: conservation of bytes on every path, and on success all bytes on the wire, an empty buffer, bytes and chunks counted exactly |
| `LargeMessages.LargeMessageConn.WriteChunks` | largemsg.go:217-257 | the loop ends, keeps wire plus buffer equal to the data written so far, and counts the chunks |
| `LargeMessages.ChunksStep` | largemsg.go:220 | the number of chunks drops by one with each chunk |
| `LargeMessages.LargeMessageConn.Read` | largemsg.go:143-194 | both branches deliver the pending bytes once and in order; a large read is full unless the input ends, and counts between one and as many chunks as it fills |
| `LargeMessages.LargeMessageConn.FillChunks` | largemsg.go:163-193 | the fill loop ends and turns an end behind data into a success |
| `LargeMessages.LargeMessageConn.Close` | largemsg.go:290-297 | what was buffered is on the wire unless flushing failed, which is counted |
| `LargeMessages.Adapted` | largemsg.go:112-140 | the chunk and buffer sizes for every message size, and how many chunks that makes |
| `LargeMessages.Send` | message_sizer.go:544-562 | a prefix of the data reaches the connection, all of it on success |
| `LargeMessages.Receive` | message_sizer.go:564-605 | everything sent if it is at most 1 MiB, ErrFrameTooBig if it is more, for every way the bytes and their end arrive; of a connection that breaks, which of the two errors, for every read size |
| `Strategies.SlicesShape` | message_sizer.go:420-447 | the chunks partition the data, all but the last are full, each flag is on exactly one frame |
| `Strategies.MediumSend` | message_sizer.go:407-453 | the frames written, chunked or single |
| `Strategies.SlicesInDomain` | message_sizer.go:420-447 | all chunks lie in the codec's domain if and only if the length of a full one and that of the last do |
| `Strategies.MediumReceived` | message_sizer.go:418-449 | ReceiveStream, with either processor, puts a chunked medium message together again |
| `Strategies.MediumWhole` | message_sizer.go:449-453 | what is not cut is one frame without any flag of a stream |
| `Strategies.HugeSend` | message_sizer.go:620-687 | the length frame, then the chunks |
| `Strategies.HugeReceive` | message_sizer.go:689-754 | the loop ends on every input and computes the receiving function |
| `Strategies.HugeRoundTrip` | message_sizer.go:620-754 | for every chunk size that keeps the chunks in the codec's domain: the data comes back, with exactly the suffix left, if and only if it is not empty and the retry count admits its size; otherwise ErrFrameTooBig |
| `Strategies.HugeAsStream` | message_sizer.go:620-687 | to ReceiveStream a huge message is a stream that holds its length in eight bytes, then its data |
| `Strategies.HugeLength` | message_sizer.go:710-753 | on arbitrary input a success has exactly the announced positive length |
| `Strategies.SmallSend` | message_sizer.go:316-345 | header and data reach the connection as one sequence |
| `Strategies.SmallReceive` | message_sizer.go:347-392 | the loop-free reading function, over any blocks |
| `Strategies.SmallRoundTrip` | message_sizer.go:316-392 | a small message comes back if and only if it has at least one and fewer than 16384 bytes |
| `Strategies.SmallReplaced` | message_sizer.go:380-390 | if the data is replaced by other data of its length, a receiver that checks refuses it if and only if the parities differ |
| `Strategies.OneByteChanged` | message_sizer.go:325-332 | the parity byte tells any change of one byte |
| `MessageTheory.MessageRoundTrip` | message_processor.go:331-550 | an encoded message decodes, before any suffix, to itself if and only if its body is below 4 GiB, field by field: four fields reduced mod 16, the time of encoding if there was no timestamp, lengths and checksum of key and body, the rest exact; a message is not encoded only for its key or its truncated body length |
| `MessageTheory.FieldSlices` | message_processor.go:363-398 | where each field of the header is on the wire |
| `MessageTheory.StampedIsValid` | message_processor.go:347-349 | a message that the encoder stamped is valid for its time to live from then on |
| `MessageTheory.ValidIsEncoded` | message_processor.go:553-591 | exactly when a message is valid, and that its lengths then arrive as its header announced them |
| `MessageTheory.NothingReduced` | message_processor.go:363-368 | it comes back with nothing reduced if and only if, besides, version, priority, type and flags are below 16 |
| `MessageTheory.Canonical` | message_processor.go:346-434 | re-encoding a decoded message gives its bytes again, if and only if its body is within the limit and there is nothing to fill in |
| `MessageTheory.CacheAgain` | message_processor.go:452-550 | it gives the cached bytes if and only if, besides, nothing followed the message |
| `MessageTheory.DecodedParts` | message_processor.go:438-533 | accepted bytes are header, header checksum, key and body, with matching checksums |
| `MessageTheory.EncodeAgain` | message_processor.go:346-434 | encoding an unmodified message again gives the cached bytes, unless its timestamp is filled in again |
| `MessageTheory.ReceivedIsValid` | message_processor.go:553-591 | a received message fails a receiver's validation only for its version, its age or that receiver's limit |
| `MessageTheory.ReadExactly` | message_processor.go:613-648 | bytes are read as a message, and nothing behind them is taken, if and only if they decode to it and are no longer than it |
| `MessageTheory.ReadAllBack` | message_processor.go:594-676 | any list of intact messages, cached or not, written in a row is read back from one buffered reader as the same list |
| `MessageTheory.ReadBackExactly` | message_processor.go:594-676 | a list of written messages comes back after each message if and only if every message is intact |
| `MessageTheory.UncachedIntact` | message_processor.go:666-672 | a message without a cache is intact if and only if it is encoded and its body is below 4 GiB |
| `MessageTheory.EncodeCaches` | message_processor.go:430-434 | EncodeMessage leaves an intact message if and only if its body is below 4 GiB |
| `MessageTheory.DecodeCaches` | message_processor.go:438-550 | DecodeMessage leaves an intact message if and only if nothing followed it |
| `MessageTheory.ReadCaches` | message_processor.go:594-648 | ReadMessage leaves an intact message |
| `MessageTheory.ReadTakesExtent` | message_processor.go:613-648 | reading takes exactly one message's bytes off the input |
| `MessageTheory.GetPutFields` | message_processor.go:363-398 | the header fields survive, four of them reduced |
| `MessageTheory.PutGetFields` | message_processor.go:452-479 | every 25 bytes are the encoding of what they decode to |
| `Messages.MessageProcessor.EncodeMessage` | message_processor.go:315-435 | the bytes, the completed header field by field, the cache, and what is left alone on refusal |
| `Messages.MessageProcessor.DecodeMessage` | message_processor.go:438-550 | a fresh message with its cache, or the first error |
| `Messages.MessageProcessor.ReadMessage` | message_processor.go:594-648 | one message off a shared buffered reader, caching exactly the bytes taken |
| `Messages.MessageProcessor.WriteMessage` | message_processor.go:651-676 | the cached bytes if any, else the encoded message |
| `Listening.ReachableAccounts` | listener.go:120-199 | in every reachable state, with or without a buffer, the streams sent on are deliveries followed by the queue, in order; the bound holds; all accounts add up; no Accept blocks beside a queued stream |
| `Listening.WatchdogSeesIdleness` | listener.go:285-304 | when the watchdog closes, nothing counted before it read the counters was counted within the timeout |
| `Listening.IdleListenerCloses` | listener.go:290-304 | while nothing is counted, each decision of the watchdog closes if and only if more than the timeout has passed since the last activity it noted |
| `Listening.ActivityIsNoted` | listener.go:294-297 | a decision after something was counted notes the time and closes nothing |
| `Listening.ReachableWatchdog` | listener.go:277-282 | there is a watchdog exactly if there is a positive timeout |
| `Listening.ClosedForGood` | listener.go:121-126 | closed and with no Accept under way, a listener delivers nothing any more |
| `Listening.RefusesOnlyWhenFull` | listener.go:252-275 | a listener that is not cancelled refuses a stream if and only if its queue is full and no Accept blocks |
| `Listening.Listener.Handle` | listener.go:252-275 | the handler's select: to a blocked Accept, into the queue, or refused |
| `Listening.Listener.BlockAccept` | listener.go:128-130 | an Accept with nothing ready blocks |
| `Listening.Listener.BeginAccept` | listener.go:120-126 | the check of the closed flag |
| `Listening.Listener.FinishAccept` | listener.go:128-183 | the select of Accept with a case ready |
| `Listening.Listener.BeginClose` | listener.go:187-195 | the closed flag is set once |
| `Listening.Listener.CheckIdle` | listener.go:290-304 | the watchdog notes activity, waits on, or closes |
| `Ranking.ExchangeSort` | message_sizer.go:247-256 | a sorted permutation |
| `Ranking.SortedUnique` | message_sizer.go:247-256 | there is only one for elements with different keys |
| `Sizing.MessageSizer.RegisterStrategy` | message_sizer.go:234-257 | replacement by name, or a sorted permutation with the new one; names stay distinct |
| `Sizing.MessageSizer.SelectStrategy` | message_sizer.go:129-144 | the first that covers the size, else the last |
| `Sizing.RegisteredTiles` | message_sizer.go:129-144 | tiles registered in any order are kept in order, and each size gets the one that covers it |
| `Sizing.TileSelected` | message_sizer.go:129-135 | exactly one tile covers a size, and it is selected |
| `Sizing.SelectRegistered` | message_sizer.go:129-257 | registering any permutation of tiles and selecting yields the one strategy that covers the size |
| `Sizing.ChunkingAgrees` | message_sizer.go:147-208 | the default parameters ask for chunks exactly where the default strategy cuts, for all sizes but negative ones |
| `Sizing.ParamsGrow` | message_sizer.go:147-208 | larger messages get no smaller buffers and no less time; how many chunks each size takes |
| `Sizing.DefaultChunksCarried` | message_sizer.go:147-208 | all frames cut with the default chunk sizes are accepted and lie in the codec's domain |
| `Sizing.DefaultsRefuseHuge` | message_sizer.go:714-716 | with the default parameters the huge strategy refuses every message of its own range |
| `Selecting.EvaluateStrategy` | strategy_selector.go:326-352 | the weighted mean, truncated, or the fallback |
| `Selecting.WeightedMean` | strategy_selector.go:331-351 | the mean lies between the least and the greatest score |
| `Selecting.MeanOfAll` | strategy_selector.go:331-351 | the rating is the sum of all scores times their weights over the sum of the weights, rounded down |
| `Selecting.OneScorer` | strategy_selector.go:335-346 | what one scorer contributes to those sums |
| `Selecting.NoWeights` | strategy_selector.go:326-352 | without any weight, 80 in the range and 30 outside |
| `Selecting.SizeScoreSeparates` | strategy_selector.go:411-468 | for a bounded range: 80 to 100 inside, 0 to 40 outside |
| `Selecting.MiddleScoresBest` | strategy_selector.go:427-439 | inside a bounded range a size nearer to the middle scores no less; the middle scores 100 |
| `Selecting.FartherScoresLess` | strategy_selector.go:449-461 | outside of it a size farther away scores no more, from 40 down to 0 |
| `Selecting.DividesByZero` | strategy_selector.go:411-458 | the size score divides by zero if and only if the size lies outside of a range whose upper bound is one below its lower |
| `Selecting.ZeroDivides` | strategy_selector.go:458 | the range from 1 without upper bound, at size 0 |
| `Selecting.SizeDecides` | strategy_selector.go:326-468 | with the size scorer alone, a bounded default strategy that covers the size is rated above every bounded one that does not |
| `Selecting.UnboundedOutside` | strategy_selector.go:449-461 | for a range without upper bound the score outside is at most 40 exactly for sizes that are nearly inside; it divides by zero exactly if the range starts at 1 |
| `Selecting.HugeScoresTiny` | strategy_selector.go:411-468 | for size 0 the huge strategy scores as high as the tiny one |
| `Selecting.StrategySelector.SelectBestStrategy` | strategy_selector.go:203-323 | a cached selection, the sizer's choice, or the first of a sorted permutation of all scores with the next two as alternatives |
| `Selecting.BestIsGreatest` | strategy_selector.go:257-274 | the selected strategy is registered, has its own score, and none scores more |
| `Selecting.AlternativesAreNext` | strategy_selector.go:232-274 | the selected strategy, its alternatives and the rest are all registered strategies, and none of them scores more than one before it; there are two alternatives, or as many as there are |
| `Selecting.AsksGranted` | strategy_selector.go:276-297 | what the attributes ask for is granted, and nothing else of the parameters for the size changes |
| `Selecting.StrategySelector.RegisterStrategy` | strategy_selector.go:355-368 | replacement by name or addition at the end |
| `Witnesses.BitSix` | frame_processor.go:283-313 | a frame of 0x10040 bytes is read back as one byte |
| `Witnesses.ShortestStreams` | message_transporter.go:320-391 | the bytes of a stream of one byte, and of one of none |
| `Witnesses.EmptyStream` | message_transporter.go:358-391 | an empty stream is sent and refused |
| `Witnesses.BrokenSendCompleted` | message_transporter.go:348-356 | a send of two bytes announced as one, broken after the first, fails and ends Completed |
| `Witnesses.BrokenReceiveCompleted` | message_transporter.go:431-508 | a receive that breaks behind sixteen chunks of 64 KiB fails and ends Completed |
| `Witnesses.SentMoreThanAnnounced` | message_transporter.go:358-365 | of two bytes sent where one was announced, one is counted |
| `Witnesses.ReceivedMoreThanCounted` | message_transporter.go:477-497 | of 1 MiB and a byte received, 1 MiB is counted |
| `Witnesses.StreamsJoined` | message_transporter.go:393-468 | one byte and a failed reader, then a stream of one byte, are received as two bytes without an error |
| `Witnesses.CompletedRestarts` | progress_tracker.go:262-282 | a completed transfer goes back to Initializing, with a notice from Cancelled |
| `Witnesses.HugeRefused` | message_sizer.go:714-716 | a message of 1 MiB, with default parameters, is refused |
| `Witnesses.BodyLost` | message_processor.go:346-434 | a body of 4 GiB comes back empty |
| `Witnesses.TimestampFilledIn` | message_processor.go:346-434 | a zero timestamp is encoded differently later |
| `Witnesses.StrayChecksum` | message_processor.go:452-533 | a checksum for an absent body is accepted and not kept |
| `Witnesses.StaleCache` | message_processor.go:660-664 | a message changed after it was encoded is received as it was |
| `Witnesses.TrailingByte` | message_processor.go:660-664 | a message decoded with a byte behind it is written with that byte, which the next read meets |
| `Witnesses.FlagLost` | message_processor.go:60-78 | a message that asks for an acknowledgement arrives without the flag |

## Left out

- libp2p hosts, dialing, addresses, deadlines, sleeps, logging and console tracing: foreign code or effects only.
- CRC-32, gzip and the random transfer identifiers: parameters, as said above; identifiers are fresh where the transporter starts a transfer.
- A connection that recovers after an error: an end or error of the modelled source is final.
- mediumMessageStrategy.Receive: it decodes a zeroed header and returns the first frame only.
- Tracking.ProgressTracker.UpdateProgress: does not model the speed and its notice, because the speed is computed from a difference that is always zero.
- LargeMessages.LargeMessageConn.Read: bounds chunksReceived in its fill loop but does not fix it, because it counts the blocks that happen to have the size of a chunk.
- LargeMessages.LargeMessageConn.FillChunks: bounds chunksReceived in the same way.
- Strategies.HugeReceive: does not model running out of memory, because memory is unbounded in the model; the source reserves the announced total before it reads any data.
- Selecting.SizeScorer: does not model the panic of a division by zero, because scorers are total functions; when it happens is stated apart.
- Callback fan-out and goroutines of the tracker: the notices are recorded once, in the order in which they are raised.
- Message pools, middleware, filters, contexts and local bookkeeping times of messages: outside the wire format.
- ReadMessage on a reader that is not buffered: it wraps a new buffer and may read ahead.
- The selection cache's key, its usage counts and its cleanup; the reliability, realtime and network scorers, which are tables.
- Timing statistics and the compression ratio of the advanced processor.
- Pausing or stopping a transfer by another goroutine while the transporter moves it.
- console_progress.go, progress_dashboard.go, error_monitor.go, memory_manager.go and the adaptive buffers: display, counters and sizing heuristics.
