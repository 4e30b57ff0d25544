/** One concrete input for each promise that the code does not keep. */
module Witnesses {
  import opened ByteOrder
  import opened IO
  import opened Frames
  import opened FrameTheory
  import Messages
  import MessageTheory
  import opened Processors
  import opened Sizes
  import Sizing
  import Strategies
  import opened Streams
  import StreamRuns
  import opened StreamTheory
  import opened Tracking
  import TrackerRuns
  import opened Transport
  import opened TransportTheory

  function Zeros(n: nat): (r: Bytes)
    ensures |r| == n
  {
    seq(n, _ => 0)
  }

  /** A frame of 0x10040 bytes is read back without complaint as one byte: the first of its checksum. */
  lemma BitSix(codec: FrameCodec, flags: U32, suffix: Bytes, ending: Ending)
    requires codec.Fits(0x1_0040)
    ensures var data := Zeros(0x1_0040);
            && codec.Wire(data, flags).Ok?
            && codec.Read(Input(codec.Wire(data, flags).value + suffix, ending)).result ==
               Ok(Frame([codec.crc(data) / 0x100_0000], 0x40))
  {
    hide FrameCodec.Read, FrameCodec.ReadBody;
    var data := Zeros(0x1_0040);
    var first, later := Put32(codec.crc(data)), Put32(flags) + data + suffix;
    var head := Put32(0x1_0040);
    assert head == [0, 1, 0, 0x40];
    assert codec.Wire(data, flags).value + suffix == head + ([first[0]] + (first[1..] + later));
    ReadCompactHead(codec, head, [first[0]] + (first[1..] + later), ending);
    assert head[..2] == [0, 1];
    assert codec.DecodeHeader(head) == Ok(Header(1, 0, 0x40));
    ReadBodyWhole(codec, head, [first[0]], 0x40, first[1..] + later, ending);
    Quarter(codec.crc(data));
  }

  lemma Quarter(n: U32)
    ensures Put32(n)[0] == n / 0x100_0000
  {
  }

  /** The bytes of the shortest streams: one byte in one frame that opens and closes, and nothing but a closing frame. */
  lemma ShortestStreams(crc: Bytes -> U32)
    ensures var p := Basic(FrameCodec(0, crc));
            && Emit(p, Plan([Block([7], Done)], SMALL_CHUNK, true), Unlimited).bytes ==
               [0x00, 0x01, crc([7]) % 0x100, 0x43, 7]
            && Emit(p, Plan([], SMALL_CHUNK, true), Unlimited).bytes == [0x00, 0x00, crc([]) % 0x100, 0x42]
  {
    var p := Basic(FrameCodec(0, crc));
    OneEmitted(p, Frame([7], 0x03));
    OneEmitted(p, Frame([], 0x02));
    assert Plan([Block([7], Done)], SMALL_CHUNK, true) == [Frame([7], 0x03)];
    assert Plan([], SMALL_CHUNK, true) == [Frame([], 0x02)];
  }

  lemma OneEmitted(p: Processor, frame: Frame)
    requires p.Basic? && p.codec.maxFrameSize == 0 && |frame.data| < 0x100 && frame.flags < 0x40
    ensures Emit(p, [frame], Unlimited).bytes ==
            [0x00, |frame.data|, p.codec.crc(frame.data) % 0x100, frame.flags + 0x40] + frame.data
  {
    hide Processor.Offer;
    EmitCons(p, frame, [], Unlimited);
    EmitNone(p, Unlimited);
    assert [frame] + [] == [frame];
    OneWritten(p.codec, frame);
    var w := p.codec.Offer(frame.data, frame.flags, Unlimited).bytes;
    assert w + [] == w;
  }

  lemma OneWritten(codec: FrameCodec, frame: Frame)
    requires codec.maxFrameSize == 0 && |frame.data| < 0x100 && frame.flags < 0x40
    ensures codec.Offer(frame.data, frame.flags, Unlimited) ==
            Written([0x00, |frame.data|, codec.crc(frame.data) % 0x100, frame.flags + 0x40] + frame.data, Unlimited, None)
    ensures Basic(codec).Offer(frame.data, frame.flags, Unlimited) == codec.Offer(frame.data, frame.flags, Unlimited)
  {
  }

  /** A stream of nothing is sent and refused. */
  lemma EmptyStream(p: Processor)
    requires p.Base().Fits(SMALL_CHUNK) && Understands(p, p)
    ensures var sent := Emit(p, Plan([], SMALL_CHUNK, true), Unlimited);
            && sent.error == None
            && Streams.Receive(p, Input(sent.bytes, Done), false, Unlimited).error == Some(ProtocolViolation)
  {
    hide Streams.Receive, Emit, Plan, Understands;
    StreamRoundTrip(p, p, [], SMALL_CHUNK, [], Done);
    var sent := Emit(p, Plan([], SMALL_CHUNK, true), Unlimited);
    assert sent.bytes + [] == sent.bytes;
  }

  /** A stream announced with one byte, whose second byte meets a broken connection, is completed and failed. */
  lemma BrokenSendCompleted(crc: Bytes -> U32)
    ensures var p := Basic(FrameCodec(0, crc));
            var script, quota := [Block([0], More), Block([0], More)], Limited(5);
            var frames := Plan(script, ChunkSizeFor(1), true);
            var error := SendError(Emit(p, frames, quota), EndOf(script));
            error == Some(SinkFault) && SendVerdict(error, Through(p, frames, quota), 1) == TransferStatus.Completed
  {
    hide Processor.Offer, Emit, Plan, Through;
    var p := Basic(FrameCodec(0, crc));
    var later := Plan([], SMALL_CHUNK, false);
    TwoPlanned();
    OneOffered(p);
    EmitCons(p, Frame([0], Fragmented.Bit()), [Frame([0], 0)] + later, Limited(5));
    EmitCons(p, Frame([0], 0), later, Limited(0));
  }

  lemma TwoPlanned()
    ensures Plan([Block([0], More), Block([0], More)], SMALL_CHUNK, true) ==
            [Frame([0], Fragmented.Bit())] + ([Frame([0], 0)] + Plan([], SMALL_CHUNK, false))
  {
    var script := [Block([0], More), Block([0], More)];
    assert script[1..] == [Block([0], More)];
  }

  lemma OneOffered(p: Processor)
    requires p.Basic? && p.codec.maxFrameSize == 0
    ensures var w := p.Offer([0], Fragmented.Bit(), Limited(5));
            w.error == None && w.quota == Limited(0)
    ensures p.Offer([0], 0, Limited(0)).error == Some(SinkFault)
  {
  }

  /** The tracker has one of two bytes on record when only one was announced, though both were sent. */
  lemma SentMoreThanAnnounced(crc: Bytes -> U32)
    ensures var p := Basic(FrameCodec(0, crc));
            var frames := Plan([Block([0], More), Block([0], More)], ChunkSizeFor(1), true);
            && Emit(p, frames, Unlimited).error == None
            && Through(p, frames, Unlimited) == 2 && Tally(p, frames, Unlimited, 1, 0) == 1
  {
    hide Processor.Offer, Emit, Plan, Through, Tally;
    var p := Basic(FrameCodec(0, crc));
    var close := Frame([], LastFrame.Bit());
    TwoPlanned();
    NoneLeft();
    assert [close] + [] == [close];
    OneWritten(p.codec, Frame([0], Fragmented.Bit()));
    OneWritten(p.codec, Frame([0], 0));
    OneWritten(p.codec, close);
    EmitNone(p, Unlimited);
    EmitCons(p, close, [], Unlimited);
    EmitCons(p, Frame([0], 0), [close], Unlimited);
    EmitCons(p, Frame([0], Fragmented.Bit()), [Frame([0], 0)] + [close], Unlimited);
    TallyCons(p, Frame([0], Fragmented.Bit()), [Frame([0], 0)] + [close], Unlimited, 1, 0);
    TallyStops(p, [Frame([0], 0)] + [close], Unlimited, 1, 1);
  }

  lemma NoneLeft()
    ensures Plan([], SMALL_CHUNK, false) == [Frame([], LastFrame.Bit())]
  {
  }

  /** Sixteen full chunks of a stream, the first of which opens it. */
  function Mebibyte(): (frames: seq<Frame>)
    ensures |frames| == 16
    ensures forall i :: 0 <= i < 16 ==> frames[i] == Frame(Zeros(LARGE_CHUNK), StreamFlags(i == 0, false))
  {
    seq(16, i => Frame(Zeros(LARGE_CHUNK), StreamFlags(i == 0, false)))
  }

  /** A stream that breaks behind sixteen full chunks is received with an error and reported as completed. */
  lemma BrokenReceiveCompleted(p: Processor, ending: Ending)
    requires Understands(p, p) && p.Base().Fits(LARGE_CHUNK)
    ensures var input := Input(AllBits(p, Mebibyte()), ending);
            && Streams.Receive(p, input, false, Unlimited).error.Some?
            && ReceiveVerdict(p, input, Unlimited) == TransferStatus.Completed
  {
    hide Understands, Streams.Receive, Reaches, Unopened, SumsUp, AllBits, Pass, NeverClosed, Joined, Flag.In, Mebibyte;
    var frames := Mebibyte();
    MebibytePasses(p);
    Silence(p, ending);
    FullChunks(frames, 16, LARGE_CHUNK, 0);
    ReceiveFault(p, p, frames, false, [], ending, 0);
    FaultVerdict(p, p, frames, [], ending);
    assert AllBits(p, frames) + [] == AllBits(p, frames);
  }

  lemma MebibytePasses(p: Processor)
    requires p.Base().Fits(LARGE_CHUNK)
    ensures Pass(p, p, Mebibyte()) && NeverClosed(Mebibyte()) && Fragmented.In(Mebibyte()[0].flags)
  {
    hide Processor.Packed, Flag.In;
    var frames := Mebibyte();
    forall i | 0 <= i < |frames|
      ensures Sends(p, frames[i]) && p.Base().Fits(|p.Packed(frames[i]).data|)
      ensures Fragmented.In(frames[i].flags) == (i == 0) && !LastFrame.In(frames[i].flags)
    {
      StreamFlagsMeaning(i == 0, false);
      ChunkPasses(p, p, frames[i], LARGE_CHUNK);
    }
  }

  /** One byte more behind them, and the tracker has 1 MiB on record when one byte more was received. */
  lemma ReceivedMoreThanCounted(p: Processor)
    requires Understands(p, p) && p.Base().Fits(LARGE_CHUNK)
    ensures var input := Input(AllBits(p, Mebibyte() + [Frame([7], LastFrame.Bit())]), Done);
            && ReceiveTally(p, input, false, Unlimited, 0) == LARGE_MESSAGE
            && Streams.Receive(p, input, false, Unlimited).error == None
            && |Streams.Receive(p, input, false, Unlimited).written| == LARGE_MESSAGE + 1
  {
    hide Understands, Streams.Receive, ReceiveTally, SumsUp, AllBits, Processor.Packed, Flag.In, Joined;
    var closing := Frame([7], LastFrame.Bit());
    var frames := Mebibyte() + [closing];
    forall i | 0 <= i < |frames|
      ensures Sends(p, frames[i]) && p.Base().Fits(|p.Packed(frames[i]).data|)
      ensures Fragmented.In(frames[i].flags) == (i == 0) && (LastFrame.In(frames[i].flags) <==> i == 16)
    {
      StreamFlagsMeaning(i == 0, i == 16);
      assert frames[i].flags == StreamFlags(i == 0, i == 16);
      ChunkPasses(p, p, frames[i], LARGE_CHUNK);
    }
    assert frames[..16] == Mebibyte();
    FullChunks(Mebibyte(), 16, LARGE_CHUNK, 0);
    CountStops(p, p, frames, false, [], Done, 0);
    ReceiveFrames(p, p, frames, false, [], Done);
    StreamRuns.JoinedAppend(Mebibyte(), [closing]);
    ChunksJoined(Mebibyte(), LARGE_CHUNK);
    OneJoined(closing);
    assert AllBits(p, frames) + [] == AllBits(p, frames);
  }

  lemma {:induction false} ChunksJoined(frames: seq<Frame>, chunk: nat)
    requires forall i :: 0 <= i < |frames| ==> |frames[i].data| == chunk
    ensures |Joined(frames)| == |frames| * chunk
  {
    if frames != [] {
      ChunksJoined(frames[1..], chunk);
      assert chunk + (|frames| - 1) * chunk == |frames| * chunk;
    }
  }

  lemma OneJoined(frame: Frame)
    ensures Joined([frame]) == frame.data
  {
    assert Joined([frame]) == frame.data + [];
  }

  lemma Silence(p: Processor, ending: Ending)
    ensures p.Read(Input([], ending)).result.Err?
  {
  }

  /** A reader fails after one byte, the next stream has one byte, and two bytes are received without an error. */
  lemma StreamsJoined(p: Processor, code: int)
    requires p.Base().Fits(SMALL_CHUNK) && Understands(p, p)
    ensures var one := StreamRuns.Stream([Block([7], Broken(ConnectionFault(code)))], SMALL_CHUNK);
            var two := StreamRuns.Stream([Block([9], Done)], SMALL_CHUNK);
            var sent := StreamRuns.SendEach(p, [one, two]);
            Streams.Receive(p, Input(sent, Done), false, Unlimited) == Received([7, 9], Unlimited, None, Input([], Done))
  {
    hide Streams.Receive, Emit, Plan, Understands;
    var one := StreamRuns.Stream([Block([7], Broken(ConnectionFault(code)))], SMALL_CHUNK);
    var two := StreamRuns.Stream([Block([9], Done)], SMALL_CHUNK);
    StreamRuns.JoinsTheNext(p, p, one, two, [], Done);
    assert one.Data() + two.Data() == [7, 9];
    assert [one, two][1..] == [two] && [two][1..] == [];
    var a, b := Emit(p, one.Planned(), Unlimited).bytes, Emit(p, two.Planned(), Unlimited).bytes;
    assert StreamRuns.SendEach(p, [two]) == b + [];
    assert StreamRuns.SendEach(p, [one, two]) == a + (b + []) == a + b == a + b + [];
  }

  /** A completed transfer is started again, off the table, and the notice names a status it was not in. */
  lemma CompletedRestarts(retention: int)
    ensures var start, update := TrackerRuns.Event(Start("a", 1), 0), TrackerRuns.Event(Update("a", 1), 0);
            var before := TrackerRuns.Run([start, update], retention);
            var after := TrackerRuns.Run([start, update, start], retention);
            && "a" in before.transfers && before.transfers["a"].status == TransferStatus.Completed
            && "a" in after.transfers && after.transfers["a"].status == Initializing
            && !ValidTransition(TransferStatus.Completed, Initializing)
            && after.notices == before.notices + [StatusChange("a", TransferStatus.Cancelled, Initializing)]
  {
    hide Progressed;
    var start, update := TrackerRuns.Event(Start("a", 1), 0), TrackerRuns.Event(Update("a", 1), 0);
    assert [start, update, start][..2] == [start, update] && [start, update][..1] == [start] && [start][..0] == [];
    var one := TrackerRuns.Run([start], retention);
    assert one == Step(TrackerRuns.Run([], retention), start.call, 0, retention).state;
    assert one.transfers == map["a" := NewRecord(1, 0)];
    OneByte("a");
    var two := TrackerRuns.Run([start, update], retention);
    assert two == Step(one, update.call, 0, retention).state;
  }

  lemma OneByte(id: TransferId)
    ensures Progressed(id, NewRecord(1, 0), 1, 0).record.status == TransferStatus.Completed
  {
  }

  /** The smallest huge message, with its default parameters, is refused by its receiver. */
  lemma HugeRefused(codec: FrameCodec)
    requires codec.maxFrameSize == 0
    ensures var data, p := Zeros(LARGE_MESSAGE), Sizing.OptimizeParams(LARGE_MESSAGE);
            && p.chunkSize > 0
            && var sent := Emit(Basic(codec), Strategies.HugeFrames(data, p.chunkSize), Unlimited);
               Strategies.HugeReceived(codec, Input(sent.bytes, Done), p.maxRetries).result == Err(FrameTooBig)
  {
    hide Emit, Strategies.HugeFrames, Strategies.HugeReceived;
    var data, p := Zeros(LARGE_MESSAGE), Sizing.OptimizeParams(LARGE_MESSAGE);
    Sizing.DefaultsRefuseHuge(codec, data, [], Done);
    var sent := Emit(Basic(codec), Strategies.HugeFrames(data, p.chunkSize), Unlimited);
    assert sent.bytes + [] == sent.bytes;
  }

  function Plain(timestamp: I64, bodyChecksum: U32): Messages.MessageHeader {
    Messages.MessageHeader(1, 0, 0, 0, 0, 0, timestamp, 0, 0, bodyChecksum)
  }

  /** A body of 4 GiB is encoded, and lost. */
  lemma BodyLost(codec: Messages.MessageCodec, suffix: Bytes)
    ensures var m := Messages.Content(Plain(1, 0), [], Zeros(0x1_0000_0000));
            && codec.Encode(m, 0).Ok?
            && codec.Decode(codec.Encode(m, 0).value + suffix) == Ok(MessageTheory.Received(codec, m, 0).(body := []))
  {
    hide Messages.MessageCodec.Decode, Messages.PutFields, Put32;
    var m := Messages.Content(Plain(1, 0), [], Zeros(0x1_0000_0000));
    var h := codec.Complete(m, 0);
    var fields := Messages.PutFields(h);
    MessageTheory.DecodeParts(codec, h, [], suffix);
    assert codec.Encode(m, 0).value + suffix == fields + Put32(codec.crc(fields)) + [] + suffix;
  }

  /** A message with a zero timestamp, encoded at time zero and again later, has two encodings. */
  lemma TimestampFilledIn(codec: Messages.MessageCodec)
    ensures var m := Messages.Content(Plain(0, 0), [], []);
            codec.Encode(m, 0).Ok? && codec.Encode(m.(header := codec.Complete(m, 0)), 1) != codec.Encode(m, 0)
  {
    MessageTheory.EncodeAgain(codec, Messages.Content(Plain(0, 0), [], []), 0, 1);
  }

  /** A checksum for an absent body is accepted, and gone when the message is encoded again. */
  lemma StrayChecksum(codec: Messages.MessageCodec)
    ensures var fields := Messages.PutFields(Plain(1, 1));
            var data := fields + Put32(codec.crc(fields));
            codec.Decode(data).Ok? && codec.Encode(codec.Decode(data).value, 0) != Ok(data)
  {
    hide Messages.MessageCodec.Decode, Messages.MessageCodec.Encode, Messages.PutFields, Put32;
    var h := Plain(1, 1);
    var fields := Messages.PutFields(h);
    var data := fields + Put32(codec.crc(fields));
    MessageTheory.DecodeParts(codec, h, [], []);
    assert data == data + [] + [];
    MessageTheory.CacheAgain(codec, data, 0);
  }

  /** A message that is changed after it was encoded is sent as it was. */
  lemma StaleCache(codec: Messages.MessageCodec)
    requires !codec.TooLarge(1)
    ensures var m := Messages.Content(Plain(1, 0), [], [7]);
            && codec.Encode(m, 0).Ok?
            && var changed := Messages.Content(codec.Complete(m, 0), [], [8]);
               var sent := MessageTheory.Sending(changed, Some(codec.Encode(m, 0).value), 0);
               var read := codec.Read(Input(MessageTheory.Wire(codec, sent).value, Done));
               && !MessageTheory.Intact(codec, sent)
               && read.result.Ok? && read.result.value.body == [7]
  {
    hide Messages.MessageCodec.Decode, Messages.MessageCodec.Read, Messages.PutFields, Put32;
    var m := Messages.Content(Plain(1, 0), [], [7]);
    var wire := codec.Encode(m, 0).value;
    MessageTheory.EncodeCaches(codec, m, 0, 0);
    MessageTheory.ReadExactly(codec, wire, MessageTheory.Received(codec, m, 0), [], Done);
    assert wire + [] == wire;
  }

  /** A message that was decoded with a byte behind it is sent with that byte, and the next read meets it. */
  lemma TrailingByte(codec: Messages.MessageCodec)
    ensures var m := Messages.Content(Plain(1, 0), [], []);
            && codec.Encode(m, 0).Ok?
            && var data := codec.Encode(m, 0).value + [0];
               && codec.Decode(data).Ok?
               && var sent := MessageTheory.Sending(codec.Decode(data).value, Some(data), 0);
                  && !MessageTheory.Intact(codec, sent)
                  && codec.Read(Input(MessageTheory.Wire(codec, sent).value, Done)).rest == Input([0], Done)
  {
    hide Messages.MessageCodec.Decode, Messages.MessageCodec.Read, Messages.PutFields, Put32;
    var m := Messages.Content(Plain(1, 0), [], []);
    var wire := codec.Encode(m, 0).value;
    MessageTheory.EncodeCaches(codec, m, 0, 0);
    MessageTheory.MessageRoundTrip(codec, m, 0, [0]);
    MessageTheory.ReadExactly(codec, wire, MessageTheory.Received(codec, m, 0), [0], Done);
    MessageTheory.DecodeCaches(codec, wire + [0], 0);
  }

  const ACK_REQUIRED := 0x10

  /** The flag that asks for an acknowledgement does not arrive. */
  lemma FlagLost(codec: Messages.MessageCodec, suffix: Bytes)
    ensures var m := Messages.Content(Plain(1, 0).(flags := ACK_REQUIRED), [], []);
            && codec.Encode(m, 0).Ok?
            && codec.Decode(codec.Encode(m, 0).value + suffix) ==
               Ok(m.(header := codec.Complete(m, 0).(flags := 0)))
  {
    hide Messages.MessageCodec.Decode;
    MessageTheory.MessageRoundTrip(codec, Messages.Content(Plain(1, 0).(flags := ACK_REQUIRED), [], []), 0, suffix);
  }
}
