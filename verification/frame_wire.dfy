/** The bytes of a frame, and what the checksum among them guards. */
module FrameWire {
  import opened ByteOrder
  import opened IO
  import opened Frames
  import opened FrameTheory
  import opened AdvancedFrames

  /** A codec without a limit, or with one of at least n bytes. */
  predicate Admits(codec: FrameCodec, n: nat) {
    codec.maxFrameSize <= 0 || n <= codec.maxFrameSize
  }

  /** The checksum that a frame holds: its low byte below 64 KiB, else all of it. */
  function Stored(codec: FrameCodec, data: Bytes): nat {
    if |data| < 0x1_0000 then codec.crc(data) % 0x100 else codec.crc(data)
  }

  /**
   * Byte by byte. Below 64 KiB: the length in two bytes, the low byte of the checksum, the low byte of
   * the flags with 0x40 set, the data. From there: length, checksum and flags in four bytes each.
   */
  lemma WireLayout(codec: FrameCodec, data: Bytes, flags: U32, quota: Quota)
    requires Admits(codec, |data|) && |data| < 0x1_0000_0000
    ensures codec.Wire(data, flags).Ok?
    ensures var w := codec.Wire(data, flags).value;
            && codec.Offer(data, flags, quota).bytes == quota.Accepted(w)
            && if |data| < 0x1_0000 then
                 && |w| == 4 + |data| && w[4..] == data
                 && Value(w[..2]) == |data| && w[2] == codec.crc(data) % 0x100
                 && w[3] == flags % 0x100 + (if flags / 0x40 % 2 == 1 then 0 else 0x40)
               else
                 && |w| == 12 + |data| && w[12..] == data
                 && Value(w[..4]) == |data| && Value(w[4..8]) == codec.crc(data) && Value(w[8..12]) == flags
  {
    hide Put16, Put32, Get16, Get32, Value, Flag.In;
    var w := codec.Wire(data, flags).value;
    if |data| < 0x1_0000 {
      CompactByte(flags);
      assert w[..2] == Put16(|data|);
      GetPut16(|data|);
      BigEndian(w[..2]);
      assert w[4..] == data;
    } else {
      assert w[..4] == Put32(|data|) && w[4..8] == Put32(codec.crc(data)) && w[8..12] == Put32(flags);
      GetPut32(|data|);
      GetPut32(codec.crc(data));
      GetPut32(flags);
      BigEndian(w[..4]);
      BigEndian(w[4..8]);
      BigEndian(w[8..12]);
      assert w[12..] == data;
    }
  }

  lemma CompactByte(flags: U32)
    ensures Compact.In(flags) <==> flags / 0x40 % 2 == 1
    ensures Compact.In(Compact.On(flags))
    ensures Compact.On(flags) % 0x100 == flags % 0x100 + (if flags / 0x40 % 2 == 1 then 0 else 0x40)
  {
    var q, r := flags / 0x80, flags % 0x80;
    DivMod(flags, 0x40, 2 * q + r / 0x40, r % 0x40);
    DivMod(2 * q + r / 0x40, 2, q, r / 0x40);
    SetFlag(Compact, Compact, flags);
    if !Compact.In(flags) {
      LowByteKeepsFlags(Compact, flags);
      DivMod(flags + 0x40, 0x100, flags / 0x100, flags % 0x100 + 0x40);
    }
  }

  // ----- what a header leads to -----

  /** The header of a frame in the domain: what its reader makes of it, whatever data follows. */
  lemma Headed(codec: FrameCodec, data: Bytes, flags: U32) returns (head: Bytes)
    requires Admits(codec, |data|) && InDomain(|data|)
    ensures codec.Wire(data, flags).Ok? && codec.Wire(data, flags).value == head + data
    ensures codec.DecodeHeader(head) == Ok(Header(|data|, Stored(codec, data), Reported(|data|, flags)))
    ensures |head| == if |data| < 0x1_0000 then COMPACT_HEADER_SIZE else HEADER_SIZE
    ensures Compact.In(head[3]) <==> |data| < 0x1_0000
  {
    hide Put16, Put32, FrameCodec.DecodeHeader, Flag.In;
    if |data| < 0x1_0000 {
      var sent := Compact.On(flags);
      SetFlag(Compact, Compact, flags);
      LowByteKeepsFlags(Compact, sent);
      CompactLowByte(flags);
      head := Put16(|data|) + [codec.crc(data) % 0x100, sent % 0x100];
      CompactHeader(codec, |data|, codec.crc(data), sent);
    } else {
      StandardHeader(codec, |data|, codec.crc(data), flags);
      StandardByte(|data|);
      head := Put32(|data|) + (Put32(codec.crc(data)) + Put32(flags));
      RegroupFrame(Put32(|data|), Put32(codec.crc(data)), Put32(flags), data, []);
      assert codec.Wire(data, flags).value == codec.Wire(data, flags).value + [];
      assert data + [] == data;
      Regroup(Put32(|data|), Put32(codec.crc(data)) + Put32(flags), data);
    }
  }

  /** Behind a whole header comes the body, for the one reader and for the other. */
  lemma ReadsBehind(codec: AdvancedCodec, head: Bytes, rest: Bytes, ending: Ending)
    requires |head| == if |head| >= 4 && Compact.In(head[3]) then COMPACT_HEADER_SIZE else HEADER_SIZE
    ensures var input := Input(head + rest, ending);
            && codec.base.Read(input) == codec.base.ReadBody(head, Input(rest, ending))
            && codec.Read(input) == codec.ReadBody(head, Input(rest, ending))
  {
    hide FrameCodec.ReadBody, AdvancedCodec.ReadBody, Flag.In;
    if Compact.In(head[3]) {
      TakePrefix(head, rest, ending);
    } else {
      var first, later := head[..4], head[4..];
      assert first + later == head && head + rest == first + (later + rest);
      TakePrefix(first, later + rest, ending);
      TakePrefix(later, rest, ending);
    }
  }

  /** Other data of the same length does not match the stored checksum, not even in the part that is stored. */
  predicate Differs(codec: FrameCodec, data: Bytes, other: Bytes) {
    |other| == |data| && Stored(codec, other) != Stored(codec, data)
  }

  /**
   * What the checksum is for: if the data of a frame is replaced on its way by data with another
   * checksum, the reader refuses the frame if and only if the stored checksum is not zero. With a zero
   * checksum, it takes the other data for what was sent.
   */
  lemma ReplacedData(codec: FrameCodec, data: Bytes, flags: U32, other: Bytes, suffix: Bytes, ending: Ending)
    requires Admits(codec, |data|) && InDomain(|data|) && Differs(codec, data, other)
    ensures codec.Wire(data, flags).Ok? && |codec.Wire(data, flags).value| >= |data|
    ensures var w := codec.Wire(data, flags).value;
            var p := codec.Read(Input(w[..|w| - |data|] + other + suffix, ending));
            && p.rest == Input(suffix, ending)
            && (p.result == Err(ChecksumMismatch) <==> Stored(codec, data) != 0)
            && (Stored(codec, data) == 0 ==> p.result == Ok(Frame(other, Reported(|data|, flags))))
  {
    hide FrameCodec.Read, FrameCodec.DecodeHeader, FrameCodec.Wire, Flag.In, Reported;
    var head := Headed(codec, data, flags);
    ReplacedBy(AdvancedCodec(codec, d => d, d => None, false, false), data, flags, head, other, suffix, ending);
  }

  /** The same of the advanced reader. With recovery it takes the other data, and decompresses that. */
  lemma AdvancedReplacedData(codec: AdvancedCodec, data: Bytes, flags: U32, other: Bytes, suffix: Bytes, ending: Ending)
    requires Admits(codec.base, |data|) && InDomain(|data|) && Differs(codec.base, data, other)
    ensures codec.base.Wire(data, flags).Ok? && |codec.base.Wire(data, flags).value| >= |data|
    ensures var w := codec.base.Wire(data, flags).value;
            var p := codec.Read(Input(w[..|w| - |data|] + other + suffix, ending));
            && p.rest == Input(suffix, ending)
            && p.result ==
               if Stored(codec.base, data) != 0 && !codec.errorRecovery then Err(ChecksumMismatch)
               else if !Compressed.In(flags) then Ok(Frame(other, Reported(|data|, flags)))
               else if codec.decompress(other).None? then Err(DecompressionFault)
               else Ok(Frame(codec.decompress(other).value, Reported(|data|, flags)))
  {
    hide AdvancedCodec.Read, FrameCodec.DecodeHeader, FrameCodec.Wire, Flag.In, Reported;
    var head := Headed(codec.base, data, flags);
    ReportedKeepsFlags(Compressed, |data|, flags);
    ReplacedBy(codec, data, flags, head, other, suffix, ending);
  }

  lemma ReplacedBy(codec: AdvancedCodec, data: Bytes, flags: U32, head: Bytes, other: Bytes, suffix: Bytes, ending: Ending)
    requires Differs(codec.base, data, other)
    requires codec.base.Wire(data, flags).Ok? && codec.base.Wire(data, flags).value == head + data
    requires codec.base.DecodeHeader(head) == Ok(Header(|data|, Stored(codec.base, data), Reported(|data|, flags)))
    requires |head| == if |data| < 0x1_0000 then COMPACT_HEADER_SIZE else HEADER_SIZE
    requires Compact.In(head[3]) <==> |data| < 0x1_0000
    ensures var w := codec.base.Wire(data, flags).value;
            var input := Input(w[..|w| - |data|] + other + suffix, ending);
            var frame := Frame(other, Reported(|data|, flags));
            && codec.base.Read(input) ==
               Parsed(if Stored(codec.base, data) != 0 then Err(ChecksumMismatch) else Ok(frame), Input(suffix, ending))
            && codec.Read(input) ==
               Parsed(if Stored(codec.base, data) != 0 && !codec.errorRecovery then Err(ChecksumMismatch)
                      else codec.Unpacked(frame),
                      Input(suffix, ending))
  {
    hide FrameCodec.Read, AdvancedCodec.Read, FrameCodec.DecodeHeader, FrameCodec.Wire, AdvancedCodec.Unpacked, Flag.In,
         Reported;
    var w := codec.base.Wire(data, flags).value;
    assert w[..|w| - |data|] == head;
    assert head + other + suffix == head + (other + suffix);
    ReadsBehind(codec, head, other + suffix, ending);
    TakePrefix(other, suffix, ending);
  }

  // ----- when the payload is compressed -----

  /**
   * The decision of the advanced writer, for a compressor that can be inverted: what goes on the wire
   * is the compressed data with FlagCompressed if and only if compression is on, there is more than
   * 1 KiB of data, and compressing saves more than a tenth of it. Else it is the data as it is.
   */
  lemma CompressedForm(codec: AdvancedCodec, data: Bytes, flags: U32, quota: Quota)
    requires Lossless(codec.compress, codec.decompress)
    ensures var packed := codec.compress(data);
            codec.Offer(data, flags, quota) ==
            if codec.useCompression && |data| > 1024 && 10 * |packed| < 9 * |data| then
              codec.base.Offer(packed, flags + (if flags / 4 % 2 == 1 then 0 else 4), quota)
            else codec.base.Offer(data, flags, quota)
  {
    hide FrameCodec.Offer;
    assert codec.compress(data) != [];
    FlagBit(flags);
    if |data| > 1024 {
      SavesATenth(|codec.Shorter(data)|, |data|);
    }
  }

  lemma FlagBit(flags: U32)
    ensures Compressed.In(flags) <==> flags / 4 % 2 == 1
    ensures Compressed.On(flags) == flags + (if flags / 4 % 2 == 1 then 0 else 4)
  {
    var q, r := flags / 8, flags % 8;
    DivMod(flags, 4, 2 * q + r / 4, r % 4);
    DivMod(2 * q + r / 4, 2, q, r / 4);
  }

  lemma SavesATenth(a: nat, b: nat)
    requires b > 0
    ensures a as real / b as real < 0.9 <==> 10 * a < 9 * b
  {
    var q := a as real / b as real;
    assert q * b as real == a as real;
    if q < 0.9 {
      Ratio(a, b);
    } else {
      NotNegative(q - 0.9, b as real);
    }
  }

  lemma NotNegative(x: real, y: real)
    requires x >= 0.0 && y > 0.0
    ensures x * y >= 0.0
  {
  }

  /** How much this puts on a connection that takes everything. */
  lemma CompressedSize(codec: AdvancedCodec, data: Bytes, flags: U32)
    requires Lossless(codec.compress, codec.decompress) && |data| < 0x1_0000_0000 && codec.base.maxFrameSize <= 0
    ensures var n := |codec.compress(data)|;
            var sent := if codec.useCompression && |data| > 1024 && 10 * n < 9 * |data| then n else |data|;
            |codec.Offer(data, flags, Unlimited).bytes| == (if sent < 0x1_0000 then 4 else 12) + sent
  {
    hide FrameCodec.Offer, FrameCodec.Wire, AdvancedCodec.Offer;
    var packed := codec.compress(data);
    CompressedForm(codec, data, flags, Unlimited);
    WireLayout(codec.base, data, flags, Unlimited);
    if codec.useCompression && |data| > 1024 && 10 * |packed| < 9 * |data| {
      FlagBit(flags);
      WireLayout(codec.base, packed, flags + (if flags / 4 % 2 == 1 then 0 else 4), Unlimited);
    }
  }
}
