/**
 * The frame codec: a 4-byte compact header or a 12-byte standard header in front of the data.
 * Both kinds share one stream; a reader tells them apart by bit 0x40 of the fourth byte.
 */
module Frames {
  import opened ByteOrder
  import opened IO

  const HEADER_SIZE := 12
  const COMPACT_HEADER_SIZE := 4
  const COMPACT_LIMIT := 0x1_0000

  datatype Header = Header(size: nat, checksum: U32, flags: U32)

  datatype Frame = Frame(data: Bytes, flags: U32)

  datatype Parsed = Parsed(result: Result<Frame>, rest: Input)

  /** The outcome of offering some bytes to a sink. */
  datatype Written = Written(bytes: Bytes, quota: Quota, error: Option<Error>)

  /**
   * The default frame processor: its size limit (none if not positive) and its checksum. The
   * checksum is a parameter, so that what is proved holds for CRC-32 and for every other choice.
   */
  datatype FrameCodec = FrameCodec(maxFrameSize: int, crc: Bytes -> U32)
  {
    predicate Fits(size: int) {
      maxFrameSize <= 0 || size <= maxFrameSize
    }

    function HeaderBytes(size: int, checksum: U32, flags: U32): Result<Bytes> {
      if !Fits(size) then Err(FrameTooBig)
      else if size < COMPACT_LIMIT && Compact.In(flags) then
        Ok(Put16(size % 0x1_0000) + [checksum % 0x100, flags % 0x100])
      else
        Ok(Put32(size % 0x1_0000_0000) + Put32(checksum) + Put32(flags))
    }

    function DecodeHeader(header: Bytes): Result<Header> {
      if |header| < COMPACT_HEADER_SIZE || COMPACT_HEADER_SIZE < |header| < HEADER_SIZE then
        Err(HeaderSizeInvalid)
      else
        var h := if |header| == COMPACT_HEADER_SIZE then
                   Header(Get16(header[..2]), header[2], Compact.On(header[3]))
                 else
                   Header(Get32(header[..4]), Get32(header[4..8]), Get32(header[8..12]));
        if Fits(h.size) then Ok(h) else Err(FrameTooBig)
    }

    /** The bytes of one frame. */
    function Wire(data: Bytes, flags: U32): Result<Bytes> {
      var sent := if |data| < COMPACT_LIMIT then Compact.On(flags) else flags;
      var header :- HeaderBytes(|data|, crc(data), sent);
      Ok(header + data)
    }

    /** What reading one frame yields, and what it leaves of the input. */
    function Read(input: Input): Parsed {
      var head := Take(input, COMPACT_HEADER_SIZE);
      if head.result.Err? then Parsed(Err(head.result.error), head.rest)
      else if Compact.In(head.result.value[3]) then ReadBody(head.result.value, head.rest)
      else
        var tail := Take(head.rest, HEADER_SIZE - COMPACT_HEADER_SIZE);
        if tail.result.Err? then Parsed(Err(tail.result.error), tail.rest)
        else ReadBody(head.result.value + tail.result.value, tail.rest)
    }

    function ReadBody(header: Bytes, input: Input): Parsed {
      var h := DecodeHeader(header);
      if h.Err? then Parsed(Err(h.error), input)
      else if h.value.size == 0 then Parsed(Ok(Frame([], h.value.flags)), input)
      else
        var body := Take(input, h.value.size);
        if body.result.Err? then Parsed(Err(body.result.error), body.rest)
        else if !ChecksumOk(|header| == COMPACT_HEADER_SIZE, h.value.checksum, body.result.value) then
          Parsed(Err(ChecksumMismatch), body.rest)
        else Parsed(Ok(Frame(body.result.value, h.value.flags)), body.rest)
    }

    /** A zero checksum is not checked; a compact header holds the low byte of the checksum only. */
    predicate ChecksumOk(compact: bool, checksum: U32, data: Bytes) {
      || checksum == 0
      || (if compact then crc(data) % 0x100 == checksum else crc(data) == checksum)
    }

    /** What offering one frame to a sink does. */
    function Offer(data: Bytes, flags: U32, quota: Quota): Written {
      match Wire(data, flags)
      case Err(e) => Written([], quota, Some(e))
      case Ok(w) => Written(quota.Accepted(w), quota.After(w), if quota.Admits(|w|) then None else Some(SinkFault))
    }

    method EncodeHeader(size: int, checksum: U32, flags: U32) returns (r: Result<Bytes>)
      ensures r == HeaderBytes(size, checksum, flags)
    {
      if maxFrameSize > 0 && size > maxFrameSize {
        return Err(FrameTooBig);
      }
      if size < COMPACT_LIMIT && Compact.In(flags) {
        var header := new Byte[COMPACT_HEADER_SIZE](_ => 0);
        PutField(header, 0, Put16(size % 0x1_0000));
        header[2] := checksum % 0x100;
        header[3] := flags % 0x100;
        assert header[..] == header[..2] + [header[2], header[3]];
        return Ok(header[..]);
      }
      var header := new Byte[HEADER_SIZE](_ => 0);
      PutField(header, 0, Put32(size % 0x1_0000_0000));
      ghost var first := header[..4];
      PutField(header, 4, Put32(checksum));
      assert header[..4] == first;
      ghost var second := header[4..8];
      PutField(header, 8, Put32(flags));
      assert header[..4] == first && header[4..8] == second;
      assert header[..] == header[..4] + header[4..8] + header[8..12];
      return Ok(header[..]);
    }

    method WriteFrame(writer: Sink, data: Bytes, flags: U32) returns (error: Option<Error>)
      modifies writer
      ensures var w := Offer(data, flags, old(writer.quota));
              writer.written == old(writer.written) + w.bytes && writer.quota == w.quota && error == w.error
    {
      var checksum := crc(data);
      var sent := flags;
      if |data| < COMPACT_LIMIT {
        sent := Compact.On(sent);
      }
      var header := EncodeHeader(|data|, checksum, sent);
      if header.Err? {
        return Some(header.error);
      }
      var n;
      WriteInParts(writer.quota, header.value, data);
      Regroup(writer.written, header.value, writer.quota.After(header.value).Accepted(data));
      n, error := writer.Write(header.value);
      if error.None? && |data| > 0 {
        n, error := writer.Write(data);
      }
    }

    method ReadFrameWithFlags(reader: Source) returns (r: Result<Frame>)
      modifies reader
      ensures Read(old(reader.Pending())) == Parsed(r, reader.Pending())
    {
      var head := reader.ReadFull(COMPACT_HEADER_SIZE);
      if head.Err? {
        return Err(head.error);
      }
      var header := head.value;
      var isCompact := Compact.In(header[3]);
      if !isCompact {
        var remaining := reader.ReadFull(HEADER_SIZE - COMPACT_HEADER_SIZE);
        if remaining.Err? {
          return Err(remaining.error);
        }
        header := header + remaining.value;
      }
      var decoded := DecodeHeader(header);
      if decoded.Err? {
        return Err(decoded.error);
      }
      if decoded.value.size == 0 {
        return Ok(Frame([], decoded.value.flags));
      }
      var data := reader.ReadFull(decoded.value.size);
      if data.Err? {
        return Err(data.error);
      }
      if decoded.value.checksum != 0 {
        var actual := crc(data.value);
        if isCompact && actual % 0x100 != decoded.value.checksum {
          return Err(ChecksumMismatch);
        }
        if !isCompact && actual != decoded.value.checksum {
          return Err(ChecksumMismatch);
        }
      }
      return Ok(Frame(data.value, decoded.value.flags));
    }

    method ReadFrame(reader: Source) returns (r: Result<Bytes>)
      modifies reader
      ensures var p := Read(old(reader.Pending()));
              && reader.Pending() == p.rest
              && r == (if p.result.Ok? then Ok(p.result.value.data) else Err(p.result.error))
    {
      var frame := ReadFrameWithFlags(reader);
      r := if frame.Ok? then Ok(frame.value.data) else Err(frame.error);
    }
  }

  /** Stores a field in a slice that was made for it. */
  method PutField(a: array<Byte>, at: nat, field: Bytes)
    requires at + |field| <= a.Length
    modifies a
    ensures a[at..at + |field|] == field
    ensures forall k :: 0 <= k < at || at + |field| <= k < a.Length ==> a[k] == old(a[k])
  {
    forall k | 0 <= k < |field| {
      a[at + k] := field[k];
    }
  }
}
