/** What the frame codec guarantees: its exact round-trip domain, and that frames delimit themselves. */
module FrameTheory {
  import opened ByteOrder
  import opened IO
  import opened Frames

  /** The lengths whose frames the reader can recognise. */
  predicate InDomain(n: nat) {
    n < 0x1_0000 || (n < 0x1_0000_0000 && n % 0x80 < 0x40)
  }

  /** The flags a reader reports for a frame of n bytes written with these flags. */
  function Reported(n: nat, flags: U32): U32 {
    if n < COMPACT_LIMIT then Compact.On(flags % 0x100) else flags
  }

  /** The low byte of the compact flag word, in either order of masking and setting. */
  lemma CompactLowByte(flags: U32)
    ensures Compact.On(flags) % 0x100 == Compact.On(flags % 0x100)
  {
    LowByteKeepsFlags(Compact, flags);
    if !Compact.In(flags) {
      DivMod(Compact.On(flags), 0x100, flags / 0x100, flags % 0x100 + 0x40);
    }
  }

  /** Reporting a frame changes none of the stream flags. */
  lemma ReportedKeepsFlags(flag: Flag, n: nat, flags: U32)
    requires !flag.Compact?
    ensures flag.In(Reported(n, flags)) == flag.In(flags)
  {
    LowByteKeepsFlags(flag, flags);
    SetFlag(Compact, flag, flags % 0x100);
  }

  // ----- round trip -----

  /** Reading a compact header, then a body. */
  lemma ReadCompactHead(codec: FrameCodec, head: Bytes, rest: Bytes, ending: Ending)
    requires |head| == COMPACT_HEADER_SIZE && Compact.In(head[3])
    ensures codec.Read(Input(head + rest, ending)) == codec.ReadBody(head, Input(rest, ending))
  {
    hide FrameCodec.ReadBody;
    TakePrefix(head, rest, ending);
  }

  /** Reading a standard header in its two parts, then a body. */
  lemma ReadStandardHead(codec: FrameCodec, head: Bytes, tail: Bytes, rest: Bytes, ending: Ending)
    requires |head| == COMPACT_HEADER_SIZE && !Compact.In(head[3])
    requires |tail| == HEADER_SIZE - COMPACT_HEADER_SIZE
    ensures codec.Read(Input(head + (tail + rest), ending)) == codec.ReadBody(head + tail, Input(rest, ending))
  {
    hide FrameCodec.ReadBody;
    TakePrefix(head, tail + rest, ending);
    TakePrefix(tail, rest, ending);
  }

  /** A body that matches its header is delivered. */
  lemma ReadBodyWhole(codec: FrameCodec, header: Bytes, data: Bytes, flags: U32, suffix: Bytes, ending: Ending)
    requires codec.DecodeHeader(header).Ok?
    requires var h := codec.DecodeHeader(header).value;
             h.size == |data| && h.flags == flags
             && codec.ChecksumOk(|header| == COMPACT_HEADER_SIZE, h.checksum, data)
    ensures codec.ReadBody(header, Input(data + suffix, ending)) == Parsed(Ok(Frame(data, flags)), Input(suffix, ending))
  {
    hide FrameCodec.DecodeHeader;
    TakePrefix(data, suffix, ending);
    if data == [] {
      assert data + suffix == suffix;
    }
  }

  /** A compact header decodes to the size, the low byte of the checksum and the low byte of the flags. */
  lemma CompactHeader(codec: FrameCodec, size: U16, checksum: U32, flags: U32)
    requires codec.Fits(size) && Compact.In(flags)
    ensures codec.DecodeHeader(Put16(size) + [checksum % 0x100, flags % 0x100]) ==
            Ok(Header(size, checksum % 0x100, flags % 0x100))
  {
    var header := Put16(size) + [checksum % 0x100, flags % 0x100];
    GetPut16(size);
    assert header[..2] == Put16(size);
    LowByteKeepsFlags(Compact, flags);
  }

  /** A standard header decodes to the size, checksum and flags it was made from. */
  lemma StandardHeader(codec: FrameCodec, size: U32, checksum: U32, flags: U32)
    requires codec.Fits(size)
    ensures codec.DecodeHeader(Put32(size) + (Put32(checksum) + Put32(flags))) == Ok(Header(size, checksum, flags))
  {
    var header := Put32(size) + (Put32(checksum) + Put32(flags));
    GetPut32(size);
    GetPut32(checksum);
    GetPut32(flags);
    assert header[..4] == Put32(size);
    assert header[4..8] == Put32(checksum);
    assert header[8..12] == Put32(flags);
  }

  lemma ReadCompact(codec: FrameCodec, data: Bytes, flags: U32, suffix: Bytes, ending: Ending)
    requires codec.Fits(|data|) && |data| < COMPACT_LIMIT
    ensures codec.Read(Input(codec.Wire(data, flags).value + suffix, ending)) ==
            Parsed(Ok(Frame(data, Reported(|data|, flags))), Input(suffix, ending))
  {
    hide FrameCodec.Read;
    hide FrameCodec.ReadBody;
    hide FrameCodec.DecodeHeader;
    var sent := Compact.On(flags);
    SetFlag(Compact, Compact, flags);
    LowByteKeepsFlags(Compact, sent);
    CompactLowByte(flags);
    var head := codec.HeaderBytes(|data|, codec.crc(data), sent).value;
    CompactHeader(codec, |data|, codec.crc(data), sent);
    assert codec.Wire(data, flags).value + suffix == head + (data + suffix);
    ReadCompactHead(codec, head, data + suffix, ending);
    ReadBodyWhole(codec, head, data, sent % 0x100, suffix, ending);
  }

  lemma ReadStandard(codec: FrameCodec, data: Bytes, flags: U32, suffix: Bytes, ending: Ending)
    requires codec.Fits(|data|) && COMPACT_LIMIT <= |data| && InDomain(|data|)
    ensures codec.Read(Input(codec.Wire(data, flags).value + suffix, ending)) ==
            Parsed(Ok(Frame(data, flags)), Input(suffix, ending))
  {
    hide FrameCodec.Read;
    hide FrameCodec.ReadBody;
    hide FrameCodec.DecodeHeader;
    hide Put32;
    var head, tail := Put32(|data|), Put32(codec.crc(data)) + Put32(flags);
    StandardHeader(codec, |data|, codec.crc(data), flags);
    StandardByte(|data|);
    RegroupFrame(head, Put32(codec.crc(data)), Put32(flags), data, suffix);
    ReadStandardHead(codec, head, tail, data + suffix, ending);
    ReadBodyWhole(codec, head + tail, data, flags, suffix, ending);
  }

  /** In the domain, the fourth byte of a standard header is not taken for a compact one; else it is. */
  lemma StandardByte(n: U32)
    ensures Compact.In(Put32(n)[3]) <==> n % 0x80 >= 0x40
  {
    Put32Parts(n);
    Residue(n, 0x02, 0x80);
  }

  lemma RegroupFrame(a: Bytes, b: Bytes, c: Bytes, d: Bytes, e: Bytes)
    ensures a + b + c + d + e == a + (b + c + (d + e))
  {
  }

  /** Any data a read returns has the length that the first four bytes announce. */
  lemma AnnouncedLength(codec: FrameCodec, input: Input)
    requires codec.Read(input).result.Ok?
    ensures |input.bytes| >= 4
    ensures |codec.Read(input).result.value.data| ==
            if Compact.In(input.bytes[3]) then Get16(input.bytes[..2]) else Get32(input.bytes[..4])
  {
    var head := input.bytes[..4];
    if Compact.In(head[3]) {
      assert head[..2] == input.bytes[..2];
    } else {
      var header := head + input.bytes[4..][..8];
      assert header[..4] == head;
    }
  }

  /**
   * Main result on one frame, for every length and every limit: what was written is read back, with
   * nothing taken from the bytes behind it, exactly when the length lies in the domain. Outside of
   * it the reader never returns the data that was written.
   */
  lemma RoundTripDomain(codec: FrameCodec, data: Bytes, flags: U32, suffix: Bytes, ending: Ending)
    requires codec.Fits(|data|)
    ensures codec.Wire(data, flags).Ok?
    ensures var p := codec.Read(Input(codec.Wire(data, flags).value + suffix, ending));
            && (InDomain(|data|) <==>
                p == Parsed(Ok(Frame(data, Reported(|data|, flags))), Input(suffix, ending)))
            && (!InDomain(|data|) ==> p.result.Err? || p.result.value.data != data)
  {
    if |data| < COMPACT_LIMIT {
      ReadCompact(codec, data, flags, suffix, ending);
    } else if InDomain(|data|) {
      ReadStandard(codec, data, flags, suffix, ending);
    } else {
      var input := Input(codec.Wire(data, flags).value + suffix, ending);
      if codec.Read(input).result.Ok? {
        AnnouncedLength(codec, input);
        var size := |data| % 0x1_0000_0000;
        assert input.bytes[..4] == Put32(size);
        assert input.bytes[..2] == Put32(size)[..2];
        GetPut32(size);
        Put32Parts(size);
        StandardByte(size);
      }
    }
  }

  /** Whatever bytes arrive: a limit changes nothing but to refuse a frame over it, before its data is read. */
  lemma ReaderLimit(codec: FrameCodec, input: Input)
    requires codec.(maxFrameSize := 0).Read(input).result.Ok?
    ensures var p := codec.(maxFrameSize := 0).Read(input);
            var data := p.result.value.data;
            codec.Read(input) ==
            if codec.Fits(|data|) then p
            else Parsed(Err(FrameTooBig), Input(data + p.rest.bytes, input.ending))
  {
    var free := codec.(maxFrameSize := 0);
    var head := input.bytes[..COMPACT_HEADER_SIZE];
    var rest := Input(input.bytes[COMPACT_HEADER_SIZE..], input.ending);
    if Compact.In(head[3]) {
      BodyLimit(codec, head, rest);
    } else {
      var tail := Take(rest, HEADER_SIZE - COMPACT_HEADER_SIZE);
      BodyLimit(codec, head + tail.result.value, tail.rest);
    }
  }

  lemma BodyLimit(codec: FrameCodec, header: Bytes, input: Input)
    requires codec.(maxFrameSize := 0).ReadBody(header, input).result.Ok?
    ensures var p := codec.(maxFrameSize := 0).ReadBody(header, input);
            var data := p.result.value.data;
            codec.ReadBody(header, input) ==
            if codec.Fits(|data|) then p
            else Parsed(Err(FrameTooBig), Input(data + p.rest.bytes, input.ending))
  {
    var p := codec.(maxFrameSize := 0).ReadBody(header, input);
    assert p.result.value.data + p.rest.bytes == input.bytes;
  }

  /**
   * Limits at both ends, of which those that are not positive admit everything: a frame in the domain
   * gets across exactly if it exceeds neither. If it exceeds the writer's, nothing is written at all;
   * if only the reader's, its data stays unread.
   */
  lemma LimitsAtBothEnds(writer: FrameCodec, reader: FrameCodec, data: Bytes, flags: U32, suffix: Bytes, ending: Ending)
    requires writer.crc == reader.crc && InDomain(|data|)
    ensures var sent := writer.Offer(data, flags, Unlimited);
            var p := reader.Read(Input(sent.bytes + suffix, ending));
            if 0 < writer.maxFrameSize < |data| then sent == Written([], Unlimited, Some(FrameTooBig))
            else if 0 < reader.maxFrameSize < |data| then p == Parsed(Err(FrameTooBig), Input(data + suffix, ending))
            else p == Parsed(Ok(Frame(data, Reported(|data|, flags))), Input(suffix, ending))
  {
    hide FrameCodec.Read, InDomain, Reported;
    if writer.Fits(|data|) {
      var free := reader.(maxFrameSize := 0);
      var sent := writer.Offer(data, flags, Unlimited);
      assert sent.bytes == free.Wire(data, flags).value;
      RoundTripDomain(free, data, flags, suffix, ending);
      ReaderLimit(reader, Input(sent.bytes + suffix, ending));
    }
  }

  // ----- how much a read consumes, and what it depends on -----

  /** The number of bytes a successful read consumes: its header and its data. */
  function Consumed(input: Input, data: Bytes): nat
    requires |input.bytes| >= 4
  {
    (if Compact.In(input.bytes[3]) then COMPACT_HEADER_SIZE else HEADER_SIZE) + |data|
  }

  /** `rest` is what is left of `input` after some of its first bytes. */
  predicate Leaves(input: Input, rest: Input) {
    && rest.ending == input.ending
    && |rest.bytes| <= |input.bytes|
    && rest.bytes == input.bytes[|input.bytes| - |rest.bytes|..]
  }

  lemma LeavesTwice(input: Input, middle: Input, rest: Input)
    requires Leaves(input, middle) && Leaves(middle, rest)
    ensures Leaves(input, rest)
  {
    var k, n := |input.bytes| - |middle.bytes|, |middle.bytes| - |rest.bytes|;
    assert input.bytes[k..][n..] == input.bytes[k + n..];
  }

  /** A read never goes back or forward in the stream by itself: it leaves a suffix of its input. */
  lemma ReadConsumes(codec: FrameCodec, input: Input)
    ensures var p := codec.Read(input);
            && Leaves(input, p.rest)
            && (p.result.Ok? ==>
                  |input.bytes| >= 4 && |input.bytes| == Consumed(input, p.result.value.data) + |p.rest.bytes|)
  {
    var head := Take(input, COMPACT_HEADER_SIZE);
    if head.result.Ok? {
      var p := codec.Read(input);
      if Compact.In(head.result.value[3]) {
        ReadBodyConsumes(codec, head.result.value, head.rest);
        LeavesTwice(input, head.rest, p.rest);
      } else {
        var tail := Take(head.rest, HEADER_SIZE - COMPACT_HEADER_SIZE);
        LeavesTwice(input, head.rest, tail.rest);
        if tail.result.Ok? {
          ReadBodyConsumes(codec, head.result.value + tail.result.value, tail.rest);
          LeavesTwice(input, tail.rest, p.rest);
        }
      }
    }
  }

  /** Each frame takes at least a compact header. */
  lemma ReadShrinks(codec: FrameCodec, input: Input)
    ensures var p := codec.Read(input);
            && p.rest.ending == input.ending
            && |p.rest.bytes| <= |input.bytes|
            && (p.result.Ok? ==> |p.rest.bytes| + COMPACT_HEADER_SIZE <= |input.bytes|)
  {
    hide FrameCodec.Read, Flag.In;
    ReadConsumes(codec, input);
  }

  lemma ReadBodyConsumes(codec: FrameCodec, header: Bytes, input: Input)
    ensures var p := codec.ReadBody(header, input);
            && Leaves(input, p.rest)
            && (p.result.Ok? ==> |input.bytes| == |p.result.value.data| + |p.rest.bytes|)
  {
  }

  /** A successful read is decided by the bytes it consumes: more input changes nothing but the rest. */
  lemma ReadExtends(codec: FrameCodec, s: Bytes, t: Bytes, ending: Ending, ending': Ending)
    requires codec.Read(Input(s, ending)).result.Ok?
    ensures var p := codec.Read(Input(s, ending));
            codec.Read(Input(s + t, ending')) == Parsed(p.result, Input(p.rest.bytes + t, ending'))
  {
    TakeExtends(s, t, ending, ending', COMPACT_HEADER_SIZE);
    var head, rest := s[..4], s[4..];
    if Compact.In(head[3]) {
      ReadBodyExtends(codec, head, rest, t, ending, ending');
    } else {
      TakeExtends(rest, t, ending, ending', 8);
      ReadBodyExtends(codec, head + rest[..8], rest[8..], t, ending, ending');
    }
  }

  lemma TakeExtends(s: Bytes, t: Bytes, ending: Ending, ending': Ending, n: nat)
    requires n <= |s|
    ensures Take(Input(s, ending), n) == Taken(Ok(s[..n]), Input(s[n..], ending))
    ensures Take(Input(s + t, ending'), n) == Taken(Ok(s[..n]), Input(s[n..] + t, ending'))
  {
    assert (s + t)[..n] == s[..n] && (s + t)[n..] == s[n..] + t;
  }

  lemma ReadBodyExtends(codec: FrameCodec, header: Bytes, s: Bytes, t: Bytes, ending: Ending, ending': Ending)
    requires codec.ReadBody(header, Input(s, ending)).result.Ok?
    ensures var p := codec.ReadBody(header, Input(s, ending));
            codec.ReadBody(header, Input(s + t, ending')) == Parsed(p.result, Input(p.rest.bytes + t, ending'))
  {
    var size := codec.DecodeHeader(header).value.size;
    if size != 0 {
      TakeExtends(s, t, ending, ending', size);
    }
  }

  /**
   * The error of an input that ends too early: the connection's own if it broke, else an end of file, an
   * unexpected one if it comes within the first four bytes of a frame.
   */
  predicate CutShort(got: Bytes, ending: Ending, error: Error) {
    match ending
    case Broken(e) => error == e
    case Done =>
      if got == [] then error == EndOfFile
      else if |got| < 4 then error == UnexpectedEnd
      else error in {EndOfFile, UnexpectedEnd}
  }

  /** A read of the first part of what would be read as a frame reports that the input ended too early. */
  lemma ReadWants(codec: FrameCodec, s: Bytes, t: Bytes, ending: Ending, ending': Ending)
    requires var p := codec.Read(Input(s + t, ending')); p.result.Ok? && |p.rest.bytes| < |t|
    ensures var q := codec.Read(Input(s, ending)).result;
            q.Err? && CutShort(s, ending, q.error)
  {
    hide FrameCodec.DecodeHeader, FrameCodec.ChecksumOk, Flag.In;
    if |s| >= COMPACT_HEADER_SIZE {
      var head, rest := s[..4], s[4..];
      TakeExtends(s, t, ending, ending', COMPACT_HEADER_SIZE);
      if Compact.In(head[3]) {
        BodyWants(codec, head, rest, t, ending, ending');
      } else if |rest| >= 8 {
        TakeExtends(rest, t, ending, ending', 8);
        BodyWants(codec, head + rest[..8], rest[8..], t, ending, ending');
      }
    }
  }

  lemma BodyWants(codec: FrameCodec, header: Bytes, s: Bytes, t: Bytes, ending: Ending, ending': Ending)
    requires var p := codec.ReadBody(header, Input(s + t, ending')); p.result.Ok? && |p.rest.bytes| < |t|
    ensures codec.ReadBody(header, Input(s, ending)).result == Err(ShortRead(|s|, ending))
  {
    hide FrameCodec.DecodeHeader, FrameCodec.ChecksumOk;
  }

  /** Data that comes with a nonzero checksum has been compared with it. */
  lemma CheckedData(codec: FrameCodec, input: Input)
    requires codec.Read(input).result.Ok?
    ensures |input.bytes| >= 4
    ensures var data := codec.Read(input).result.value.data;
            if data == [] then true
            else if Compact.In(input.bytes[3]) then
              input.bytes[2] == 0 || input.bytes[2] == codec.crc(data) % 0x100
            else
              |input.bytes| >= 12 && (Get32(input.bytes[4..8]) == 0 || Get32(input.bytes[4..8]) == codec.crc(data))
  {
    var head := input.bytes[..4];
    if !Compact.In(head[3]) {
      var header := head + input.bytes[4..][..8];
      assert header == input.bytes[..12];
      assert input.bytes[..12][4..8] == input.bytes[4..8];
    }
  }

  // ----- frames in a row -----

  /** The codec can carry a frame with this data. */
  predicate Carries(codec: FrameCodec, frame: Frame) {
    codec.Fits(|frame.data|) && InDomain(|frame.data|)
  }

  predicate CarriesAll(codec: FrameCodec, frames: seq<Frame>) {
    forall i :: 0 <= i < |frames| ==> Carries(codec, frames[i])
  }

  /** The bytes WriteFrame puts on the wire: none for a frame it refuses. */
  function Image(codec: FrameCodec, frame: Frame): Bytes {
    match codec.Wire(frame.data, frame.flags)
    case Ok(w) => w
    case Err(_) => []
  }

  function WireAll(codec: FrameCodec, frames: seq<Frame>): Bytes {
    if frames == [] then [] else Image(codec, frames[0]) + WireAll(codec, frames[1..])
  }

  function AsReported(frame: Frame): Frame {
    Frame(frame.data, Reported(|frame.data|, frame.flags))
  }

  function AllReported(frames: seq<Frame>): (r: seq<Frame>)
    ensures |r| == |frames|
  {
    if frames == [] then [] else [AsReported(frames[0])] + AllReported(frames[1..])
  }

  datatype Batch = Batch(frames: seq<Frame>, error: Error, rest: Input)

  /** Reads frames until a read fails. */
  function ReadAll(codec: FrameCodec, input: Input): Batch
    decreases |input.bytes|
  {
    hide FrameCodec.Read;
    var p := codec.Read(input);
    if p.result.Err? then Batch([], p.result.error, p.rest)
    else
      ReadShrinks(codec, input);
      var later := ReadAll(codec, p.rest);
      Batch([p.result.value] + later.frames, later.error, later.rest)
  }

  lemma ReadOne(codec: FrameCodec, frame: Frame, suffix: Bytes, ending: Ending)
    requires Carries(codec, frame)
    ensures codec.Read(Input(Image(codec, frame) + suffix, ending)) ==
            Parsed(Ok(AsReported(frame)), Input(suffix, ending))
  {
    RoundTripDomain(codec, frame.data, frame.flags, suffix, ending);
  }

  lemma ReadNothing(codec: FrameCodec, ending: Ending)
    ensures codec.Read(Input([], ending)) == Parsed(Err(ShortRead(0, ending)), Input([], ending))
  {
  }

  /** Frames written one after the other are read back one by one; the end follows the last of them. */
  lemma {:induction false} ReadBack(codec: FrameCodec, frames: seq<Frame>, ending: Ending)
    requires CarriesAll(codec, frames)
    ensures ReadAll(codec, Input(WireAll(codec, frames), ending)) ==
            Batch(AllReported(frames), ShortRead(0, ending), Input([], ending))
  {
    hide FrameCodec.Read;
    if frames == [] {
      ReadNothing(codec, ending);
    } else {
      ReadOne(codec, frames[0], WireAll(codec, frames[1..]), ending);
      ReadBack(codec, frames[1..], ending);
    }
  }

  /** No strict prefix of a frame is read as a frame. */
  lemma StrictPrefixFails(codec: FrameCodec, frame: Frame, p: Bytes, ending: Ending)
    requires Carries(codec, frame)
    requires p < Image(codec, frame)
    ensures codec.Read(Input(p, ending)).result.Err?
  {
    hide FrameCodec.Read;
    if codec.Read(Input(p, ending)).result.Ok? {
      var t := Image(codec, frame)[|p|..];
      ReadExtends(codec, p, t, ending, ending);
      assert p + t == Image(codec, frame) == Image(codec, frame) + [];
      ReadOne(codec, frame, [], ending);
    }
  }

  /** A read that succeeds on the first part of a run of frames has found the first of them. */
  lemma FirstOfMany(codec: FrameCodec, frames: seq<Frame>, p: Bytes, ending: Ending)
    requires CarriesAll(codec, frames)
    requires p <= WireAll(codec, frames)
    requires codec.Read(Input(p, ending)).result.Ok?
    ensures frames != []
    ensures var first := codec.Read(Input(p, ending));
            && first.result.value == AsReported(frames[0])
            && first.rest.ending == ending
            && |first.rest.bytes| < |p|
            && first.rest.bytes <= WireAll(codec, frames[1..])
            && (first.rest.bytes == WireAll(codec, frames[1..]) ==> p == WireAll(codec, frames))
  {
    hide FrameCodec.Read;
    var first := codec.Read(Input(p, ending));
    ReadConsumes(codec, Input(p, ending));
    var t := WireAll(codec, frames)[|p|..];
    assert p + t == WireAll(codec, frames);
    ReadExtends(codec, p, t, ending, ending);
    var later := WireAll(codec, frames[1..]);
    ReadOne(codec, frames[0], later, ending);
    assert later == first.rest.bytes + t;
  }

  /** However a run of frames is cut off, the reader yields some of its first frames and no other. */
  lemma {:induction false} CutOff(codec: FrameCodec, frames: seq<Frame>, p: Bytes, ending: Ending)
    requires CarriesAll(codec, frames)
    requires p <= WireAll(codec, frames)
    ensures ReadAll(codec, Input(p, ending)).frames <= AllReported(frames)
    decreases |frames|
  {
    hide FrameCodec.Read;
    var first := codec.Read(Input(p, ending));
    if first.result.Ok? {
      FirstOfMany(codec, frames, p, ending);
      CutOff(codec, frames[1..], first.rest.bytes, ending);
    }
  }

  /** Different lists of frames never share their bytes on the wire. */
  lemma WireInjective(codec: FrameCodec, xs: seq<Frame>, ys: seq<Frame>)
    requires CarriesAll(codec, xs) && CarriesAll(codec, ys)
    requires WireAll(codec, xs) == WireAll(codec, ys)
    ensures AllReported(xs) == AllReported(ys)
  {
    ReadBack(codec, xs, Done);
    ReadBack(codec, ys, Done);
  }
}
