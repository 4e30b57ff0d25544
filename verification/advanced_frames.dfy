/** The advanced frame processor: optional compression and error recovery around the frame codec. */
module AdvancedFrames {
  import opened ByteOrder
  import opened IO
  import opened Frames
  import opened FrameTheory

  const COMPRESSION_THRESHOLD := 1024

  /** Data as it goes on the wire, and the flags that go with it. */
  datatype Payload = Payload(data: Bytes, flags: U32)

  /** The compressor is a parameter: a function to bytes, and its inverse where there is one. */
  datatype AdvancedCodec = AdvancedCodec(
    base: FrameCodec,
    compress: Bytes -> Bytes,
    decompress: Bytes -> Option<Bytes>,
    useCompression: bool,
    errorRecovery: bool)
  {
    /** compressData: the compressed form only if it is shorter. */
    function Shorter(data: Bytes): Bytes {
      if |data| < COMPRESSION_THRESHOLD || |compress(data)| >= |data| then data else compress(data)
    }

    predicate WorthIt(data: Bytes) {
      useCompression && |data| > COMPRESSION_THRESHOLD && |Shorter(data)| as real / |data| as real < 0.9
    }

    function PayloadOf(data: Bytes, flags: U32): Payload {
      if WorthIt(data) then
        Payload(if Shorter(data) != [] then Shorter(data) else data, Compressed.On(flags))
      else Payload(data, flags)
    }

    function Offer(data: Bytes, flags: U32, quota: Quota): Written {
      var p := PayloadOf(data, flags);
      base.Offer(p.data, p.flags, quota)
    }

    function Read(input: Input): Parsed {
      var head := Take(input, COMPACT_HEADER_SIZE);
      if head.result.Err? then Parsed(Err(head.result.error), head.rest)
      else if Compact.In(head.result.value[3]) then ReadBody(head.result.value, head.rest)
      else
        var tail := Take(head.rest, HEADER_SIZE - COMPACT_HEADER_SIZE);
        if tail.result.Err? then Parsed(Err(tail.result.error), tail.rest)
        else ReadBody(head.result.value + tail.result.value, tail.rest)
    }

    function ReadBody(header: Bytes, input: Input): Parsed {
      var h := base.DecodeHeader(header);
      if h.Err? then Parsed(Err(h.error), input)
      else if h.value.size == 0 then Parsed(Ok(Frame([], h.value.flags)), input)
      else
        var body := Take(input, h.value.size);
        if body.result.Err? then Parsed(Err(body.result.error), body.rest)
        else if !errorRecovery && !base.ChecksumOk(|header| == COMPACT_HEADER_SIZE, h.value.checksum, body.result.value)
        then Parsed(Err(ChecksumMismatch), body.rest)
        else Parsed(Unpacked(Frame(body.result.value, h.value.flags)), body.rest)
    }

    /** The frame at the front of the input is complete, but does not match its checksum. */
    predicate Corrupt(input: Input) {
      var head := Take(input, COMPACT_HEADER_SIZE);
      && head.result.Ok?
      && if Compact.In(head.result.value[3]) then CorruptBody(head.result.value, head.rest)
         else
           var tail := Take(head.rest, HEADER_SIZE - COMPACT_HEADER_SIZE);
           tail.result.Ok? && CorruptBody(head.result.value + tail.result.value, tail.rest)
    }

    predicate CorruptBody(header: Bytes, input: Input) {
      var h := base.DecodeHeader(header);
      && h.Ok? && h.value.size != 0
      && var body := Take(input, h.value.size).result;
         body.Ok? && !base.ChecksumOk(|header| == COMPACT_HEADER_SIZE, h.value.checksum, body.value)
    }

    /** decompressData, for a frame that says it is compressed. */
    function Unpacked(frame: Frame): Result<Frame> {
      if !Compressed.In(frame.flags) then Ok(frame)
      else
        match decompress(frame.data)
        case Some(data) => Ok(Frame(data, frame.flags))
        case None => Err(DecompressionFault)
    }
  }

  class AdvancedFrameProcessor {
    const codec: AdvancedCodec
    var framesProcessed: nat
    var bytesProcessed: nat
    var processingErrors: nat
    var checksumErrors: nat
    var compressedFrames: nat

    constructor (codec: AdvancedCodec)
      ensures this.codec == codec
      ensures framesProcessed == bytesProcessed == processingErrors == checksumErrors == compressedFrames == 0
    {
      this.codec := codec;
      framesProcessed, bytesProcessed, processingErrors, checksumErrors, compressedFrames := 0, 0, 0, 0, 0;
    }

    method CompressData(data: Bytes) returns (r: Bytes)
      modifies this`compressedFrames
      ensures r == codec.Shorter(data)
      ensures compressedFrames == old(compressedFrames) + if |r| < |data| then 1 else 0
    {
      if |data| < COMPRESSION_THRESHOLD {
        return data;
      }
      var packed := codec.compress(data);
      if |packed| >= |data| {
        return data;
      }
      compressedFrames := compressedFrames + 1;
      return packed;
    }

    /** Every call is counted once: as a frame with the bytes on the wire, or as an error. */
    method WriteFrame(writer: Sink, data: Bytes, flags: U32) returns (error: Option<Error>)
      modifies this, writer
      ensures var w := codec.Offer(data, flags, old(writer.quota));
              && writer.written == old(writer.written) + w.bytes && writer.quota == w.quota && error == w.error
      ensures error.None? ==>
                && framesProcessed == old(framesProcessed) + 1 && processingErrors == old(processingErrors)
                && bytesProcessed == old(bytesProcessed) + |codec.PayloadOf(data, flags).data|
      ensures error.Some? ==>
                && framesProcessed == old(framesProcessed) && processingErrors == old(processingErrors) + 1
                && bytesProcessed == old(bytesProcessed)
      ensures checksumErrors == old(checksumErrors)
      ensures compressedFrames ==
              old(compressedFrames) + if codec.useCompression && |data| > 1024 && |codec.compress(data)| < |data| then 1 else 0
    {
      hide FrameCodec.Offer, AdvancedCodec.PayloadOf;
      var p := Pack(data, flags);
      error := codec.base.WriteFrame(writer, p.data, p.flags);
      if error.Some? {
        processingErrors := processingErrors + 1;
        return;
      }
      framesProcessed, bytesProcessed := framesProcessed + 1, bytesProcessed + |p.data|;
    }

    /** The compression decision of WriteFrame. */
    method Pack(data: Bytes, flags: U32) returns (p: Payload)
      modifies this`compressedFrames
      ensures p == codec.PayloadOf(data, flags)
      ensures compressedFrames ==
              old(compressedFrames) + if codec.useCompression && |data| > 1024 && |codec.compress(data)| < |data| then 1 else 0
    {
      p := Payload(data, flags);
      if codec.useCompression && |data| > COMPRESSION_THRESHOLD {
        var compressed := CompressData(data);
        if |compressed| as real / |data| as real < 0.9 {
          p := Payload(if compressed != [] then compressed else data, Compressed.On(flags));
        }
      }
    }

    /**
     * Every call is counted: as a frame with its bytes, or as an error; a checksum that does not match
     * is counted on its own, and is an error of its own kind unless it is let pass.
     */
    method ReadFrameWithFlags(reader: Source) returns (r: Result<Frame>)
      modifies this, reader
      ensures codec.Read(old(reader.Pending())) == Parsed(r, reader.Pending())
      ensures framesProcessed == old(framesProcessed) + if r.Ok? then 1 else 0
      ensures bytesProcessed == old(bytesProcessed) + if r.Ok? then |r.value.data| else 0
      ensures checksumErrors == old(checksumErrors) + if codec.Corrupt(old(reader.Pending())) then 1 else 0
      ensures processingErrors ==
              old(processingErrors) + if r.Err? && (codec.errorRecovery || !codec.Corrupt(old(reader.Pending()))) then 1 else 0
      ensures compressedFrames == old(compressedFrames)
    {
      var head := reader.ReadFull(COMPACT_HEADER_SIZE);
      if head.Err? {
        processingErrors := processingErrors + 1;
        return Err(head.error);
      }
      var header := head.value;
      var isCompact := Compact.In(header[3]);
      if !isCompact {
        var remaining := reader.ReadFull(HEADER_SIZE - COMPACT_HEADER_SIZE);
        if remaining.Err? {
          processingErrors := processingErrors + 1;
          return Err(remaining.error);
        }
        header := header + remaining.value;
      }
      r := FinishFrame(reader, header);
    }

    method FinishFrame(reader: Source, header: Bytes) returns (r: Result<Frame>)
      modifies this, reader
      ensures codec.ReadBody(header, old(reader.Pending())) == Parsed(r, reader.Pending())
      ensures framesProcessed == old(framesProcessed) + if r.Ok? then 1 else 0
      ensures bytesProcessed == old(bytesProcessed) + if r.Ok? then |r.value.data| else 0
      ensures checksumErrors == old(checksumErrors) + if codec.CorruptBody(header, old(reader.Pending())) then 1 else 0
      ensures processingErrors ==
              old(processingErrors) + if r.Err? && (codec.errorRecovery || !codec.CorruptBody(header, old(reader.Pending()))) then 1 else 0
      ensures compressedFrames == old(compressedFrames)
    {
      hide FrameCodec.DecodeHeader;
      var decoded := codec.base.DecodeHeader(header);
      if decoded.Err? {
        processingErrors := processingErrors + 1;
        return Err(decoded.error);
      }
      var flags := decoded.value.flags;
      if decoded.value.size == 0 {
        framesProcessed := framesProcessed + 1;
        return Ok(Frame([], flags));
      }
      var data := reader.ReadFull(decoded.value.size);
      if data.Err? {
        processingErrors := processingErrors + 1;
        return Err(data.error);
      }
      if !codec.base.ChecksumOk(|header| == COMPACT_HEADER_SIZE, decoded.value.checksum, data.value) {
        checksumErrors := checksumErrors + 1;
        if !codec.errorRecovery {
          return Err(ChecksumMismatch);
        }
      }
      r := codec.Unpacked(Frame(data.value, flags));
      if r.Err? {
        processingErrors := processingErrors + 1;
        return;
      }
      framesProcessed, bytesProcessed := framesProcessed + 1, bytesProcessed + |r.value.data|;
    }
  }

  // ----- properties -----

  /** What the advanced reader makes of a frame that the basic reader found. */
  function Interpreted(codec: AdvancedCodec, p: Parsed): Parsed {
    if p.result.Err? || p.result.value.data == [] then p
    else Parsed(codec.Unpacked(p.result.value), p.rest)
  }

  /** The advanced reader agrees with the basic one, but for decompression and for failed checksums it lets pass. */
  lemma ReadsLikeBase(codec: AdvancedCodec, input: Input)
    ensures var p := codec.base.Read(input);
            && (codec.Corrupt(input) ==> p.result == Err(ChecksumMismatch))
            && (!codec.Corrupt(input) || !codec.errorRecovery ==> codec.Read(input) == Interpreted(codec, p))
  {
  }

  /** A read leaves a suffix of its input, and takes at least a compact header off it if it succeeds. */
  lemma AdvancedLeaves(codec: AdvancedCodec, input: Input)
    ensures var p := codec.Read(input);
            Leaves(input, p.rest) && (p.result.Ok? ==> |p.rest.bytes| + COMPACT_HEADER_SIZE <= |input.bytes|)
  {
    hide Flag.In;
    var head := Take(input, COMPACT_HEADER_SIZE);
    if head.result.Ok? {
      var p := codec.Read(input);
      if Compact.In(head.result.value[3]) {
        AdvancedBodyLeaves(codec, head.result.value, head.rest);
        LeavesTwice(input, head.rest, p.rest);
      } else {
        var tail := Take(head.rest, HEADER_SIZE - COMPACT_HEADER_SIZE);
        LeavesTwice(input, head.rest, tail.rest);
        if tail.result.Ok? {
          AdvancedBodyLeaves(codec, head.result.value + tail.result.value, tail.rest);
          LeavesTwice(input, tail.rest, p.rest);
        }
      }
    }
  }

  lemma AdvancedBodyLeaves(codec: AdvancedCodec, header: Bytes, input: Input)
    ensures Leaves(input, codec.ReadBody(header, input).rest)
  {
  }

  /** A successful read depends on nothing behind the bytes it consumes. */
  lemma AdvancedExtends(codec: AdvancedCodec, s: Bytes, t: Bytes, ending: Ending, ending': Ending)
    requires codec.Read(Input(s, ending)).result.Ok?
    ensures var p := codec.Read(Input(s, ending));
            codec.Read(Input(s + t, ending')) == Parsed(p.result, Input(p.rest.bytes + t, ending'))
  {
    TakeExtends(s, t, ending, ending', COMPACT_HEADER_SIZE);
    var head, rest := s[..4], s[4..];
    if Compact.In(head[3]) {
      AdvancedBodyExtends(codec, head, rest, t, ending, ending');
    } else {
      TakeExtends(rest, t, ending, ending', 8);
      AdvancedBodyExtends(codec, head + rest[..8], rest[8..], t, ending, ending');
    }
  }

  lemma AdvancedBodyExtends(codec: AdvancedCodec, header: Bytes, s: Bytes, t: Bytes, ending: Ending, ending': Ending)
    requires codec.ReadBody(header, Input(s, ending)).result.Ok?
    ensures var p := codec.ReadBody(header, Input(s, ending));
            codec.ReadBody(header, Input(s + t, ending')) == Parsed(p.result, Input(p.rest.bytes + t, ending'))
  {
    hide FrameCodec.DecodeHeader, FrameCodec.ChecksumOk, AdvancedCodec.Unpacked;
    var size := codec.base.DecodeHeader(header).value.size;
    if size != 0 {
      TakeExtends(s, t, ending, ending', size);
    }
  }

  /** A read of the first part of what would be read as a frame reports that the input ended too early. */
  lemma AdvancedWants(codec: AdvancedCodec, s: Bytes, t: Bytes, ending: Ending, ending': Ending)
    requires var p := codec.Read(Input(s + t, ending')); p.result.Ok? && |p.rest.bytes| < |t|
    ensures var q := codec.Read(Input(s, ending)).result;
            q.Err? && CutShort(s, ending, q.error)
  {
    hide AdvancedCodec.ReadBody, Flag.In;
    if |s| >= COMPACT_HEADER_SIZE {
      var head, rest := s[..4], s[4..];
      TakeExtends(s, t, ending, ending', COMPACT_HEADER_SIZE);
      if Compact.In(head[3]) {
        AdvancedBodyWants(codec, head, rest, t, ending, ending');
      } else if |rest| >= 8 {
        TakeExtends(rest, t, ending, ending', 8);
        AdvancedBodyWants(codec, head + rest[..8], rest[8..], t, ending, ending');
      }
    }
  }

  lemma AdvancedBodyWants(codec: AdvancedCodec, header: Bytes, s: Bytes, t: Bytes, ending: Ending, ending': Ending)
    requires var p := codec.ReadBody(header, Input(s + t, ending')); p.result.Ok? && |p.rest.bytes| < |t|
    ensures codec.ReadBody(header, Input(s, ending)).result == Err(ShortRead(|s|, ending))
  {
    hide FrameCodec.DecodeHeader, FrameCodec.ChecksumOk, AdvancedCodec.Unpacked;
  }

  /** The compressor can be inverted, and never yields nothing. */
  ghost predicate Lossless(compress: Bytes -> Bytes, decompress: Bytes -> Option<Bytes>) {
    forall d: Bytes :: decompress(compress(d)) == Some(d) && compress(d) != []
  }

  /** FlagCompressed is added exactly when the payload was replaced by its compressed form. */
  lemma FlagAgrees(codec: AdvancedCodec, data: Bytes, flags: U32)
    requires Lossless(codec.compress, codec.decompress)
    ensures var p := codec.PayloadOf(data, flags);
            && (Compressed.In(p.flags) <==> Compressed.In(flags) || p.data != data)
            && (if p.data != data then p.data == codec.compress(data) && 10 * |p.data| < 9 * |data| else p.flags == flags)
  {
    SetFlag(Compressed, Compressed, flags);
    if codec.WorthIt(data) {
      Ratio(|codec.Shorter(data)|, |data|);
    }
  }

  lemma Ratio(a: nat, b: nat)
    requires b > 0 && a as real / b as real < 0.9
    ensures 10 * a < 9 * b
  {
    var q := a as real / b as real;
    assert q * b as real == a as real;
    Times(0.9 - q, b as real);
  }

  lemma Times(x: real, y: real)
    requires x > 0.0 && y > 0.0
    ensures x * y > 0.0
  {
  }

  /**
   * Round trip through two processors that share codec and decompressor, whatever their other
   * options: the data comes back exactly if the caller left FlagCompressed to the processor, or the
   * data was in fact compressed, or it is empty or its own decompression.
   */
  lemma AdvancedRoundTrip(writer: AdvancedCodec, reader: AdvancedCodec, data: Bytes, flags: U32, suffix: Bytes,
                          ending: Ending)
    requires reader.base == writer.base && reader.decompress == writer.decompress
    requires Lossless(writer.compress, writer.decompress)
    requires Carries(writer.base, Frame(writer.PayloadOf(data, flags).data, writer.PayloadOf(data, flags).flags))
    ensures var p := writer.PayloadOf(data, flags);
            var back := reader.Read(Input(writer.base.Wire(p.data, p.flags).value + suffix, ending));
            (!Compressed.In(flags) || p.data != data || data == [] || reader.decompress(data) == Some(data)) <==>
            back == Parsed(Ok(Frame(data, Reported(|p.data|, p.flags))), Input(suffix, ending))
  {
    hide FrameCodec.Read, AdvancedCodec.Read, AdvancedCodec.Corrupt, AdvancedCodec.PayloadOf, FrameCodec.Wire;
    var p := writer.PayloadOf(data, flags);
    RoundTripDomain(writer.base, p.data, p.flags, suffix, ending);
    var input := Input(writer.base.Wire(p.data, p.flags).value + suffix, ending);
    ReadsLikeBase(reader, input);
    FlagAgrees(writer, data, flags);
    ReportedKeepsFlags(Compressed, |p.data|, p.flags);
  }
}
