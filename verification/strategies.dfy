/** The small, medium and huge transport strategies: how they cut data up and put it together again. */
module Strategies {
  import opened ByteOrder
  import opened IO
  import opened Frames
  import opened FrameTheory
  import opened Processors
  import opened Sizes
  import opened Streams
  import opened StreamTheory

  // ----- data in chunks -----

  function ChunkEnd(data: Bytes, at: nat, chunk: nat): nat {
    if at + chunk > |data| then |data| else at + chunk
  }

  /** The frames for the data from `at` on: the first chunk of all opens the stream, the last closes it. */
  function Slices(data: Bytes, at: nat, chunk: nat): seq<Frame>
    requires chunk > 0
    decreases |data| - at
  {
    if at >= |data| then []
    else
      var end := ChunkEnd(data, at, chunk);
      [Frame(data[at..end], StreamFlags(at == 0, end == |data|))] + Slices(data, end, chunk)
  }

  /**
   * The chunks partition the data: none is empty, all but the last are full, Fragmented is on
   * exactly the first and LastFrame on exactly the last.
   */
  lemma {:induction false} SlicesShape(data: Bytes, at: nat, chunk: nat)
    requires chunk > 0 && at < |data|
    ensures var frames := Slices(data, at, chunk);
            && Joined(frames) == data[at..]
            && ClosedByLast(frames)
            && (forall i :: 0 <= i < |frames| ==> (Fragmented.In(frames[i].flags) <==> at == 0 && i == 0))
            && (forall i :: 0 <= i < |frames| ==> 0 < |frames[i].data| <= chunk && !Compressed.In(frames[i].flags))
            && (forall i :: 0 <= i < |frames| - 1 ==> |frames[i].data| == chunk)
    decreases |data| - at
  {
    var end := ChunkEnd(data, at, chunk);
    var frames := Slices(data, at, chunk);
    StreamFlagsMeaning(at == 0, end == |data|);
    assert frames[1..] == Slices(data, end, chunk);
    assert data[at..] == data[at..end] + data[end..];
    if end < |data| {
      SlicesShape(data, end, chunk);
    }
  }

  /** The lengths that cutting n bytes yields lie in the domain of the codec: that of a full chunk, and of the last. */
  predicate CutsInDomain(n: nat, chunk: nat)
    requires chunk > 0
  {
    n == 0 || (InDomain((n - 1) % chunk + 1) && (n > chunk ==> InDomain(chunk)))
  }

  /** For chunks of at most 64 KiB they always do. */
  lemma SmallCuts(n: nat, chunk: nat)
    requires 0 < chunk <= LARGE_CHUNK
    ensures CutsInDomain(n, chunk)
  {
    if n > 0 {
      ChunkInDomain((n - 1) % chunk + 1);
      ChunkInDomain(chunk);
    }
  }

  /** Cutting off one chunk. */
  lemma CutsStep(n: nat, chunk: nat)
    requires n > 0 && chunk > 0
    ensures var first := if n > chunk then chunk else n;
            CutsInDomain(n, chunk) <==> InDomain(first) && CutsInDomain(n - first, chunk)
  {
    hide InDomain;
    if n > chunk {
      DivMod(n - 1, chunk, (n - chunk - 1) / chunk + 1, (n - chunk - 1) % chunk);
    } else {
      DivMod(n - 1, chunk, 0, n - 1);
    }
  }

  predicate AllInDomain(frames: seq<Frame>) {
    forall i :: 0 <= i < |frames| ==> InDomain(|frames[i].data|)
  }

  lemma FirstInDomain(frame: Frame, later: seq<Frame>)
    ensures AllInDomain([frame] + later) <==> InDomain(|frame.data|) && AllInDomain(later)
  {
    hide InDomain;
    var frames := [frame] + later;
    assert frames[0] == frame && frames[1..] == later;
    assert forall i :: 0 <= i < |later| ==> later[i] == frames[i + 1];
  }

  /** Exactly then all chunks of the data can be carried. */
  lemma {:induction false} SlicesInDomain(data: Bytes, at: nat, chunk: nat)
    requires chunk > 0 && at <= |data|
    ensures AllInDomain(Slices(data, at, chunk)) <==> CutsInDomain(|data| - at, chunk)
    decreases |data| - at
  {
    if at < |data| {
      hide InDomain, AllInDomain, CutsInDomain;
      var end := ChunkEnd(data, at, chunk);
      CutsStep(|data| - at, chunk);
      FirstInDomain(Frame(data[at..end], StreamFlags(at == 0, end == |data|)), Slices(data, end, chunk));
      SlicesInDomain(data, end, chunk);
    }
  }

  lemma SlicesPass(codec: FrameCodec, r: Processor, data: Bytes, chunk: nat)
    requires chunk > 0 && codec.Fits(chunk) && r.Base().Fits(chunk)
    requires CutsInDomain(|data|, chunk)
    ensures Pass(Basic(codec), r, Slices(data, 0, chunk))
  {
    hide CutsInDomain, InDomain, Flag.In;
    var frames := Slices(data, 0, chunk);
    SlicesInDomain(data, 0, chunk);
    if data != [] {
      SlicesShape(data, 0, chunk);
      hide Slices;
      forall i | 0 <= i < |frames|
        ensures Sends(Basic(codec), frames[i]) && r.Base().Fits(|frames[i].data|)
      {
      }
    }
  }

  // ----- medium messages -----

  function MediumFrames(data: Bytes, useChunking: bool, chunk: int): seq<Frame>
    requires useChunking && |data| > chunk ==> chunk > 0
  {
    if useChunking && |data| > chunk then Slices(data, 0, chunk) else [Frame(data, 0)]
  }

  method MediumSend(codec: FrameCodec, conn: Sink, data: Bytes, useChunking: bool, chunkSize: int)
    returns (error: Option<Error>)
    requires useChunking && |data| > chunkSize ==> chunkSize > 0
    modifies conn
    ensures var limited := codec.(maxFrameSize := MEDIUM_MESSAGE);
            var w := Emit(Basic(limited), MediumFrames(data, useChunking, chunkSize), old(conn.quota));
            conn.written == old(conn.written) + w.bytes && conn.quota == w.quota && error == w.error
  {
    var limited := codec.(maxFrameSize := MEDIUM_MESSAGE);
    if useChunking && |data| > chunkSize {
      error := SendSlices(limited, conn, data, chunkSize);
      return;
    }
    error := limited.WriteFrame(conn, data, 0);
    ghost var frames := [Frame(data, 0)];
    assert frames[1..] == [];
  }

  /** Emit on slices, one chunk at a time. */
  lemma EmitSlices(codec: FrameCodec, data: Bytes, at: nat, chunk: nat, quota: Quota)
    requires chunk > 0 && at < |data|
    ensures var end := ChunkEnd(data, at, chunk);
            var w := codec.Offer(data[at..end], StreamFlags(at == 0, end == |data|), quota);
            && at < end <= |data|
            && Emit(Basic(codec), Slices(data, at, chunk), quota) ==
               (if w.error.None? then Behind(w.bytes, Emit(Basic(codec), Slices(data, end, chunk), w.quota)) else w)
  {
    hide FrameCodec.Offer, StreamFlags;
    assert Slices(data, at, chunk)[1..] == Slices(data, ChunkEnd(data, at, chunk), chunk);
  }

  /** The chunk loop that the medium and the huge strategy share. */
  method SendSlices(codec: FrameCodec, conn: Sink, data: Bytes, chunkSize: nat) returns (error: Option<Error>)
    requires chunkSize > 0
    modifies conn
    ensures var w := Emit(Basic(codec), Slices(data, 0, chunkSize), old(conn.quota));
            conn.written == old(conn.written) + w.bytes && conn.quota == w.quota && error == w.error
  {
    hide FrameCodec.Offer, StreamFlags, Emit, Slices;
    ghost var whole := Emit(Basic(codec), Slices(data, 0, chunkSize), conn.quota);
    ghost var gone: Bytes := [];
    var i := 0;
    error := None;
    while i < |data| && error.None?
      invariant 0 <= i <= |data|
      invariant error.None? ==> whole == Behind(gone, Emit(Basic(codec), Slices(data, i, chunkSize), conn.quota))
      invariant error.Some? ==> whole == Written(gone, conn.quota, error)
      invariant conn.written == old(conn.written) + gone
      decreases error.None?, |data| - i
    {
      var end := i + chunkSize;
      if end > |data| {
        end := |data|;
      }
      EmitSlices(codec, data, i, chunkSize, conn.quota);
      ghost var w := codec.Offer(data[i..end], StreamFlags(i == 0, end == |data|), conn.quota);
      BehindTwice(gone, w.bytes, Emit(Basic(codec), Slices(data, end, chunkSize), w.quota));
      var flags := ChunkFlags(i == 0, end == |data|);
      Regroup(old(conn.written), gone, w.bytes);
      error := codec.WriteFrame(conn, data[i..end], flags);
      gone := gone + w.bytes;
      i := end;
    }
    EmitNoSlices(codec, data, i, chunkSize, conn.quota);
    BehindNothing(gone, conn.quota);
  }

  lemma EmitNoSlices(codec: FrameCodec, data: Bytes, at: nat, chunk: nat, quota: Quota)
    requires chunk > 0
    ensures at >= |data| ==> Emit(Basic(codec), Slices(data, at, chunk), quota) == Written([], quota, None)
  {
  }

  /** What a medium send cuts into chunks, any stream receiver that uses the same checksum puts together again. */
  lemma MediumReceived(codec: FrameCodec, r: Processor, data: Bytes, chunk: nat, suffix: Bytes, ending: Ending)
    requires r.Base().crc == codec.crc && r.Base().Fits(chunk)
    requires 0 < chunk < |data| && chunk <= MEDIUM_MESSAGE && CutsInDomain(|data|, chunk)
    ensures var w := Emit(Basic(codec.(maxFrameSize := MEDIUM_MESSAGE)), MediumFrames(data, true, chunk), Unlimited);
            && w.error == None
            && Receive(r, Input(w.bytes + suffix, ending), false, Unlimited) ==
               Received(data, Unlimited, None, Input(suffix, ending))
  {
    hide Processor.Read, Receive, Emit;
    var w := Basic(codec.(maxFrameSize := MEDIUM_MESSAGE));
    var frames := Slices(data, 0, chunk);
    SlicesShape(data, 0, chunk);
    SlicesPass(w.codec, r, data, chunk);
    EmitAll(w, frames);
    ReceiveFrames(w, r, frames, false, suffix, ending);
    assert data[0..] == data;
  }

  /** What a medium send does not cut is one frame without any flag of a stream, for every reader. */
  lemma MediumWhole(codec: FrameCodec, r: Processor, data: Bytes, useChunking: bool, chunk: int, suffix: Bytes,
                    ending: Ending)
    requires r.Base().crc == codec.crc && r.Base().Fits(|data|)
    requires !useChunking || |data| <= chunk
    requires |data| <= MEDIUM_MESSAGE && InDomain(|data|)
    ensures var w := Emit(Basic(codec.(maxFrameSize := MEDIUM_MESSAGE)), MediumFrames(data, useChunking, chunk), Unlimited);
            var p := r.Read(Input(w.bytes + suffix, ending));
            && w.error == None
            && p.result.Ok? && p.rest == Input(suffix, ending) && p.result.value.data == data
            && !Fragmented.In(p.result.value.flags) && !LastFrame.In(p.result.value.flags)
  {
    hide Processor.Read, Emit, InDomain;
    var w := Basic(codec.(maxFrameSize := MEDIUM_MESSAGE));
    var frame := Frame(data, 0);
    EmitAll(w, [frame]);
    assert AllBits(w, [frame]) == Bits(w, frame) + [];
    assert Bits(w, frame) + [] == Bits(w, frame);
    ReadPacked(w, r, frame, suffix, ending);
  }

  // ----- huge messages -----

  const INT_LIMIT := 0x8000_0000_0000_0000

  /** A frame with the length in eight bytes, then the data in chunks. */
  function HugeFrames(data: Bytes, chunk: nat): seq<Frame>
    requires chunk > 0 && |data| < INT_LIMIT
  {
    [Frame(Put64(|data|), Fragmented.Bit())] + Slices(data, 0, chunk)
  }

  method HugeSend(codec: FrameCodec, conn: Sink, data: Bytes, chunkSize: nat) returns (error: Option<Error>)
    requires chunkSize > 0 && |data| < INT_LIMIT
    modifies conn
    ensures var w := Emit(Basic(codec.(maxFrameSize := 0)), HugeFrames(data, chunkSize), old(conn.quota));
            conn.written == old(conn.written) + w.bytes && conn.quota == w.quota && error == w.error
  {
    hide FrameCodec.Offer;
    var plain := codec.(maxFrameSize := 0);
    ghost var frames := HugeFrames(data, chunkSize);
    assert frames[1..] == Slices(data, 0, chunkSize);
    error := plain.WriteFrame(conn, Put64(|data|), Fragmented.Bit());
    if error.None? {
      error := SendSlices(plain, conn, data, chunkSize);
    }
  }

  datatype Gathered = Gathered(result: Result<Bytes>, rest: Input)

  /** Reads frames until their data reaches the announced total. */
  function Gather(codec: FrameCodec, input: Input, total: nat, got: Bytes): Gathered
    decreases |input.bytes|
  {
    hide FrameCodec.Read;
    if |got| >= total then Gathered(if |got| == total then Ok(got) else Err(LengthMismatch), input)
    else
      var p := codec.Read(input);
      if p.result.Err? then Gathered(Err(p.result.error), p.rest)
      else
        ReadShrinks(codec, input);
        Gather(codec, p.rest, total, got + p.result.value.data)
  }

  predicate AcceptsTotal(total: int, maxRetries: int) {
    total > 0 && (maxRetries <= 0 || total <= maxRetries)
  }

  /** What the huge strategy receives. Its limit on the size is the retry count, if that is positive. */
  function HugeReceived(codec: FrameCodec, input: Input, maxRetries: int): Gathered {
    var p := codec.Read(input);
    if p.result.Err? then Gathered(Err(p.result.error), p.rest)
    else if |p.result.value.data| < 8 then Gathered(Err(HeaderFormatInvalid), p.rest)
    else
      var total := ToSigned(Get64(p.result.value.data[..8]));
      if !AcceptsTotal(total, maxRetries) then Gathered(Err(FrameTooBig), p.rest)
      else Gather(codec, p.rest, total, [])
  }

  /** The loop ends on every input, since each frame consumes at least its header. */
  method HugeReceive(codec: FrameCodec, conn: Source, maxRetries: int) returns (r: Result<Bytes>)
    modifies conn
    ensures HugeReceived(codec.(maxFrameSize := 0), old(conn.Pending()), maxRetries) == Gathered(r, conn.Pending())
  {
    hide FrameCodec.Read;
    var plain := codec.(maxFrameSize := 0);
    var headerFrame := plain.ReadFrame(conn);
    if headerFrame.Err? {
      return Err(headerFrame.error);
    }
    if |headerFrame.value| < 8 {
      return Err(HeaderFormatInvalid);
    }
    var totalSize := ToSigned(Get64(headerFrame.value[..8]));
    if totalSize <= 0 || (maxRetries > 0 && totalSize > maxRetries) {
      return Err(FrameTooBig);
    }
    var buffer: Bytes := [];
    ghost var start := conn.Pending();
    while |buffer| < totalSize
      invariant Gather(plain, start, totalSize, []) == Gather(plain, conn.Pending(), totalSize, buffer)
      decreases |conn.Pending().bytes|
    {
      ReadShrinks(plain, conn.Pending());
      var dataFrame := plain.ReadFrame(conn);
      if dataFrame.Err? {
        return Err(dataFrame.error);
      }
      buffer := buffer + dataFrame.value;
    }
    r := if |buffer| == totalSize then Ok(buffer) else Err(LengthMismatch);
  }

  /** Gathering the chunks of the data rebuilds the data. */
  lemma {:induction false} GatherSlices(codec: FrameCodec, data: Bytes, at: nat, chunk: nat, suffix: Bytes,
                                        ending: Ending)
    requires 0 < chunk && at <= |data|
    requires SendsAll(Basic(codec), Slices(data, at, chunk))
    ensures Gather(codec, Input(AllBits(Basic(codec), Slices(data, at, chunk)) + suffix, ending), |data|, data[..at]) ==
            Gathered(Ok(data), Input(suffix, ending))
    decreases |data| - at
  {
    hide FrameCodec.Read, FrameCodec.Wire;
    var frames := Slices(data, at, chunk);
    if at == |data| {
      assert AllBits(Basic(codec), frames) + suffix == suffix;
      assert data[..at] == data;
    } else {
      var end := ChunkEnd(data, at, chunk);
      assert frames[1..] == Slices(data, end, chunk);
      var later := AllBits(Basic(codec), frames[1..]);
      assert AllBits(Basic(codec), frames) + suffix == Bits(Basic(codec), frames[0]) + (later + suffix);
      ReadOne(codec, frames[0], later + suffix, ending);
      assert data[..at] + data[at..end] == data[..end];
      GatherSlices(codec, data, end, chunk, suffix, ending);
    }
  }

  /**
   * The huge strategy returns exactly the data that was sent, and leaves what follows, if and only
   * if the data is not empty and the retry count, used as a limit on the size, admits it.
   */
  lemma HugeRoundTrip(codec: FrameCodec, data: Bytes, chunk: nat, maxRetries: int, suffix: Bytes, ending: Ending)
    requires codec.maxFrameSize == 0
    requires chunk > 0 && CutsInDomain(|data|, chunk) && |data| < INT_LIMIT
    ensures var w := Emit(Basic(codec), HugeFrames(data, chunk), Unlimited);
            var r := HugeReceived(codec, Input(w.bytes + suffix, ending), maxRetries);
            && w.error == None
            && (if data != [] && (maxRetries <= 0 || |data| <= maxRetries) then
                  r == Gathered(Ok(data), Input(suffix, ending))
                else r.result == Err(FrameTooBig))
  {
    hide FrameCodec.Read, FrameCodec.Wire, Put64, Get64;
    var frames, slices := HugeFrames(data, chunk), Slices(data, 0, chunk);
    SlicesPass(codec, Basic(codec), data, chunk);
    ChunkInDomain(8);
    assert SendsAll(Basic(codec), frames);
    EmitAll(Basic(codec), frames);
    assert frames[1..] == slices;
    var later := AllBits(Basic(codec), slices);
    assert AllBits(Basic(codec), frames) + suffix == Bits(Basic(codec), frames[0]) + (later + suffix);
    ReadOne(codec, frames[0], later + suffix, ending);
    GetPut64(|data|);
    assert Put64(|data|)[..8] == Put64(|data|);
    if data != [] {
      GatherSlices(codec, data, 0, chunk, suffix, ending);
      assert data[..0] == [];
    }
  }

  /**
   * A huge message is a stream as well: to ReceiveStream it opens with its length in eight bytes, most
   * significant first, and closes with its last chunk.
   */
  lemma HugeAsStream(codec: FrameCodec, r: Processor, data: Bytes, chunk: nat, suffix: Bytes, ending: Ending)
    requires codec.maxFrameSize == 0 && r.Base().crc == codec.crc && r.Base().Fits(chunk) && r.Base().Fits(8)
    requires chunk > 0 && CutsInDomain(|data|, chunk) && 0 < |data| < INT_LIMIT
    ensures exists length: Bytes ::
              && |length| == 8 && Value(length) == |data|
              && Receive(r, Input(Emit(Basic(codec), HugeFrames(data, chunk), Unlimited).bytes + suffix, ending), false,
                         Unlimited) ==
                 Received(length + data, Unlimited, None, Input(suffix, ending))
  {
    hide Processor.Read, Receive, Emit, Flag.In, InDomain, CutsInDomain, Value, Put64, Get64;
    var w := Basic(codec);
    var length, slices := Put64(|data|), Slices(data, 0, chunk);
    var head := Frame(length, Fragmented.Bit());
    var frames := HugeFrames(data, chunk);
    SlicesShape(data, 0, chunk);
    SlicesPass(codec, r, data, chunk);
    HeadPasses(codec, r, length);
    assert frames == [head] + slices && frames[1..] == slices;
    assert Pass(w, r, frames) && ClosedByLast(frames);
    EmitAll(w, frames);
    ReceiveFrames(w, r, frames, false, suffix, ending);
    GetPut64(|data|);
    BigEndian(length);
    assert data[0..] == data;
    assert Joined(frames) == length + data;
  }

  lemma HeadPasses(codec: FrameCodec, r: Processor, length: Bytes)
    requires codec.maxFrameSize == 0 && |length| == 8 && r.Base().Fits(8)
    ensures var head := Frame(length, Fragmented.Bit());
            && Sends(Basic(codec), head) && r.Base().Fits(|Basic(codec).Packed(head).data|)
            && Fragmented.In(head.flags) && !LastFrame.In(head.flags)
  {
  }

  /** Whatever bytes arrive: a success has exactly the announced length. */
  lemma {:induction false} GatherLength(codec: FrameCodec, input: Input, total: nat, got: Bytes)
    ensures var g := Gather(codec, input, total, got);
            g.result.Ok? ==> |g.result.value| == total && got <= g.result.value
    decreases |input.bytes|
  {
    hide FrameCodec.Read;
    if |got| < total {
      var p := codec.Read(input);
      if p.result.Ok? {
        ReadShrinks(codec, input);
        GatherLength(codec, p.rest, total, got + p.result.value.data);
      }
    }
  }

  lemma HugeLength(codec: FrameCodec, input: Input, maxRetries: int)
    ensures var r := HugeReceived(codec, input, maxRetries).result;
            var first := codec.Read(input).result;
            r.Ok? ==>
              && first.Ok? && |first.value.data| >= 8
              && |r.value| == ToSigned(Get64(first.value.data[..8])) > 0
  {
    hide FrameCodec.Read, Get64;
    var p := codec.Read(input);
    if p.result.Ok? && |p.result.value.data| >= 8 {
      var total := ToSigned(Get64(p.result.value.data[..8]));
      if total > 0 {
        GatherLength(codec, p.rest, total, []);
      }
    }
  }

  // ----- small messages -----

  function TwoTo(n: nat): nat {
    if n == 0 then 1 else 2 * TwoTo(n - 1)
  }

  /** The exclusive or of the last n binary digits. */
  function XorDigits(a: nat, b: nat, n: nat): (r: nat)
    ensures r < TwoTo(n)
  {
    if n == 0 then 0 else 2 * XorDigits(a / 2, b / 2, n - 1) + if a % 2 == b % 2 then 0 else 1
  }

  function Xor(a: Byte, b: Byte): Byte {
    assert TwoTo(8) == 0x100 by {
      assert TwoTo(4) == 0x10;
    }
    XorDigits(a, b, 8)
  }

  /** The exclusive or of all bytes. */
  function Parity(data: Bytes): Byte {
    if data == [] then 0 else Xor(Parity(data[..|data| - 1]), data[|data| - 1])
  }

  method ComputeParity(data: Bytes) returns (checksum: Byte)
    ensures checksum == Parity(data)
  {
    checksum := 0;
    for i := 0 to |data|
      invariant checksum == Parity(data[..i])
    {
      checksum := Xor(checksum, data[i]);
      assert data[..i + 1][..i] == data[..i];
    }
    assert data[..|data|] == data;
  }

  function SmallHeader(data: Bytes): Bytes {
    [|data| / 0x100 % 0x100, |data| % 0x100, Parity(data)]
  }

  method SmallSend(conn: Sink, data: Bytes) returns (error: Option<Error>)
    modifies conn
    ensures var wire := [|data| / 0x100 % 0x100, |data| % 0x100, Parity(data)] + data;
            && conn.written == old(conn.written) + old(conn.quota).Accepted(wire)
            && conn.quota == old(conn.quota).After(wire)
            && (error.None? <==> old(conn.quota).Admits(|wire|))
  {
    hide Parity;
    var checksum := ComputeParity(data);
    var header := [|data| / 0x100 % 0x100, |data| % 0x100, checksum];
    var n;
    WriteInParts(conn.quota, header, data);
    Regroup(conn.written, header, conn.quota.After(header).Accepted(data));
    n, error := conn.Write(header);
    if error.None? {
      n, error := conn.Write(data);
    }
  }

  function SmallReceived(input: Input, enableChecksum: bool): Gathered {
    var head := Take(input, 3);
    if head.result.Err? then Gathered(Err(head.result.error), head.rest)
    else
      var size := Get16(head.result.value[..2]);
      if size == 0 || size >= SMALL_MESSAGE then Gathered(Err(HeaderFormatInvalid), head.rest)
      else
        var body := Take(head.rest, size);
        if body.result.Err? then Gathered(Err(body.result.error), body.rest)
        else if enableChecksum && Parity(body.result.value) != head.result.value[2] then
          Gathered(Err(ChecksumMismatch), body.rest)
        else Gathered(body.result, body.rest)
  }

  method SmallReceive(conn: Source, enableChecksum: bool) returns (r: Result<Bytes>)
    modifies conn
    ensures SmallReceived(old(conn.Pending()), enableChecksum) == Gathered(r, conn.Pending())
  {
    var header := conn.ReadFull(3);
    if header.Err? {
      return Err(header.error);
    }
    var size := Get16(header.value[..2]);
    if size <= 0 || size >= SMALL_MESSAGE {
      return Err(HeaderFormatInvalid);
    }
    r := conn.ReadFull(size);
    if r.Err? {
      return;
    }
    if enableChecksum {
      var checksum := ComputeParity(r.value);
      if checksum != header.value[2] {
        return Err(ChecksumMismatch);
      }
    }
  }

  /** A small message comes back exactly if it has a byte and is shorter than 16 KiB. */
  lemma SmallRoundTrip(data: Bytes, enableChecksum: bool, suffix: Bytes, ending: Ending)
    ensures SmallReceived(Input(SmallHeader(data) + data + suffix, ending), enableChecksum) ==
            Gathered(Ok(data), Input(suffix, ending))
            <==> 0 < |data| < SMALL_MESSAGE
  {
    hide Parity;
    var header := SmallHeader(data);
    assert header + data + suffix == header + (data + suffix);
    TakePrefix(header, data + suffix, ending);
    TakePrefix(data, suffix, ending);
    assert header[..2] == [|data| / 0x100 % 0x100, |data| % 0x100];
    if |data| < 0x1_0000 {
      assert Get16(header[..2]) == |data|;
    }
  }

  lemma {:induction false} DigitsTell(a: nat, b: nat, c: nat, n: nat)
    requires b < TwoTo(n) && c < TwoTo(n)
    ensures XorDigits(a, b, n) == XorDigits(a, c, n) <==> b == c
    ensures XorDigits(a, b, n) == XorDigits(b, a, n)
  {
    if n > 0 {
      DigitsTell(a / 2, b / 2, c / 2, n - 1);
    }
  }

  lemma XorTells(a: Byte, b: Byte, c: Byte)
    ensures Xor(a, b) == Xor(a, c) <==> b == c
    ensures Xor(b, a) == Xor(c, a) <==> b == c
  {
    assert TwoTo(8) == 0x100 by {
      assert TwoTo(4) == 0x10;
    }
    DigitsTell(a, b, c, 8);
    DigitsTell(a, c, b, 8);
  }

  /** The parity byte tells any change of one byte. */
  lemma {:induction false} OneByteChanged(data: Bytes, i: nat, x: Byte)
    requires i < |data|
    ensures Parity(data[i := x]) == Parity(data) <==> x == data[i]
  {
    hide Xor;
    var n := |data| - 1;
    var changed := data[i := x];
    if i < n {
      OneByteChanged(data[..n], i, x);
      assert changed[..n] == data[..n][i := x];
      XorTells(data[n], Parity(data[..n]), Parity(changed[..n]));
    } else {
      assert changed[..n] == data[..n];
      XorTells(Parity(data[..n]), data[n], x);
    }
  }

  /**
   * What the parity byte is for: if the data of a small message is replaced on its way by other data of
   * the same length, a receiver that checks refuses it if and only if the parities differ.
   */
  lemma SmallReplaced(data: Bytes, other: Bytes, enableChecksum: bool, suffix: Bytes, ending: Ending)
    requires 0 < |data| < SMALL_MESSAGE && |other| == |data|
    ensures SmallReceived(Input(SmallHeader(data) + other + suffix, ending), enableChecksum) ==
            Gathered(if enableChecksum && Parity(other) != Parity(data) then Err(ChecksumMismatch) else Ok(other),
                     Input(suffix, ending))
  {
    hide Parity, Get16;
    var header := SmallHeader(data);
    SmallSize(data);
    assert header + other + suffix == header + (other + suffix);
    TakePrefix(header, other + suffix, ending);
    TakePrefix(other, suffix, ending);
  }

  lemma SmallSize(data: Bytes)
    requires |data| < 0x1_0000
    ensures Get16(SmallHeader(data)[..2]) == |data|
  {
    hide Parity;
    assert SmallHeader(data)[..2] == [|data| / 0x100 % 0x100, |data| % 0x100];
  }
}
