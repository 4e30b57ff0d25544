/** The message format: a packed 25-byte header, its checksum, a routing key and a body. */
module Messages {
  import opened ByteOrder
  import opened IO
  import opened Buffered

  type U8 = n: int | 0 <= n < 0x100

  const FIELDS_SIZE := 25
  const HEADER_SIZE := 29
  const MAX_ROUTING_KEY := 255
  const SECOND := 1_000_000_000

  datatype MessageHeader = MessageHeader(
    version: U8,
    priority: int,
    kind: int,
    flags: U8,
    id: U32,
    bodyLength: U32,
    timestamp: I64,
    ttl: U16,
    routingKeyLength: U8,
    bodyChecksum: U32)

  /** What a message says: its header, its routing key (a byte string) and its body. */
  datatype Content = Content(header: MessageHeader, routingKey: Bytes, body: Bytes)

  /** Two four-bit fields in a byte: (a << 4) | (b & 0x0F). */
  function Nibbles(a: int, b: int): Byte {
    a % 0x10 * 0x10 + b % 0x10
  }

  /** The header fields on the wire, without the header checksum. */
  function PutFields(h: MessageHeader): (r: Bytes)
    ensures |r| == FIELDS_SIZE
  {
    [Nibbles(h.version, h.priority), Nibbles(h.kind, h.flags)]
    + Put32(h.id) + Put32(h.bodyLength) + Put64(ToUnsigned(h.timestamp)) + Put16(h.ttl)
    + [h.routingKeyLength] + Put32(h.bodyChecksum)
  }

  function GetFields(b: Bytes): MessageHeader
    requires |b| == FIELDS_SIZE
  {
    MessageHeader(
      b[0] / 0x10, b[0] % 0x10, b[1] / 0x10, b[1] % 0x10,
      Get32(b[2..6]), Get32(b[6..10]), ToSigned(Get64(b[10..18])), Get16(b[18..20]), b[20], Get32(b[21..25]))
  }

  /** The message processor without middleware: its size limit and its checksum. */
  datatype MessageCodec = MessageCodec(maxBodySize: int, crc: Bytes -> U32)
  {
    /** The header as encoding completes it. */
    function Complete(m: Content, now: I64): MessageHeader
      requires |m.routingKey| <= MAX_ROUTING_KEY
    {
      var length := |m.body| % 0x1_0000_0000;
      m.header.(
        routingKeyLength := |m.routingKey|,
        bodyLength := length,
        timestamp := if m.header.timestamp == 0 then now else m.header.timestamp,
        bodyChecksum := if length > 0 then crc(m.body) else 0)
    }

    /** BodyLength > uint32(maxBodySize), on the truncated length. */
    predicate TooLarge(length: U32) {
      length > maxBodySize % 0x1_0000_0000
    }

    function Encode(m: Content, now: I64): Result<Bytes> {
      if |m.routingKey| > MAX_ROUTING_KEY then Err(RoutingKeyTooLong)
      else
        var h := Complete(m, now);
        if TooLarge(h.bodyLength) then Err(BodyTooLarge)
        else Ok(PutFields(h) + Put32(crc(PutFields(h))) + m.routingKey + if h.bodyLength > 0 then m.body else [])
    }

    /** What WriteMessage sends: the cached bytes if there are any, else the encoded message. */
    function Sent(m: Content, cache: Option<Bytes>, now: I64): Result<Bytes> {
      match cache
      case Some(bytes) => Ok(bytes)
      case None => Encode(m, now)
    }

    /** Decodes the message at the front of the data. */
    function Decode(data: Bytes): Result<Content> {
      if |data| < HEADER_SIZE then Err(HeaderMissing)
      else
        var h := GetFields(data[..FIELDS_SIZE]);
        var keyEnd := HEADER_SIZE + h.routingKeyLength;
        var end := keyEnd + h.bodyLength;
        if crc(data[..FIELDS_SIZE]) != Get32(data[FIELDS_SIZE..HEADER_SIZE]) then Err(HeaderChecksumMismatch)
        else if |data| < keyEnd then Err(RoutingKeyMissing)
        else if |data| < end then Err(BodyMissing)
        else if h.bodyLength > 0 && crc(data[keyEnd..end]) != h.bodyChecksum then Err(BodyChecksumMismatch)
        else Ok(Content(h, data[HEADER_SIZE..keyEnd], data[keyEnd..end]))
    }

    /** ValidateMessage at a time in nanoseconds: the first defect that is found. */
    function Validate(m: Content, now: int): Option<Error> {
      if m.header.version == 0 then Some(VersionInvalid)
      else if TooLarge(m.header.bodyLength) then Some(BodyTooLarge)
      else if m.header.bodyLength != |m.body| % 0x1_0000_0000 then Some(BodyLengthWrong)
      else if m.header.routingKeyLength != |m.routingKey| % 0x100 then Some(RoutingKeyLengthWrong)
      else if m.header.ttl > 0 && now - m.header.timestamp > m.header.ttl * SECOND then Some(MessageExpired)
      else None
    }

    /** What ReadMessage makes of an input: as many bytes as the header announces, decoded. */
    function Read(input: Input): Reading {
      var head := Take(input, HEADER_SIZE);
      if head.result.Err? then Reading(Err(head.result.error), head.rest)
      else
        var h := GetFields(head.result.value[..FIELDS_SIZE]);
        var tail := Take(head.rest, h.routingKeyLength as nat + h.bodyLength as nat);
        if tail.result.Err? then Reading(Err(tail.result.error), tail.rest)
        else Reading(Decode(head.result.value + tail.result.value), tail.rest)
    }
  }

  datatype Reading = Reading(result: Result<Content>, rest: Input)

  class Message {
    var header: MessageHeader
    var routingKey: Bytes
    var body: Bytes
    var rawData: Option<Bytes>

    constructor (content: Content, rawData: Option<Bytes>)
      ensures Value() == content && this.rawData == rawData
    {
      header, routingKey, body := content.header, content.routingKey, content.body;
      this.rawData := rawData;
    }

    ghost function Value(): Content
      reads this
    {
      Content(header, routingKey, body)
    }
  }

  class MessageProcessor {
    const codec: MessageCodec
    var processCounter: nat

    constructor (codec: MessageCodec)
      ensures this.codec == codec && processCounter == 0
    {
      this.codec, processCounter := codec, 0;
    }

    /**
     * EncodeMessage completes the header in place and caches the bytes. A message that is refused
     * keeps its text, its timestamp and its cache; of its header, only the lengths may change.
     */
    method EncodeMessage(msg: Message?, now: I64) returns (r: Result<Bytes>)
      modifies msg
      ensures msg == null ==> r == Err(NoMessage)
      ensures msg != null ==> r == codec.Encode(old(msg.Value()), now)
      ensures r.Ok? ==>
                && msg != null && |msg.routingKey| <= MAX_ROUTING_KEY
                && msg.header == codec.Complete(old(msg.Value()), now)
                && msg.rawData == Some(r.value)
      ensures r.Ok? ==>
                var h, length := old(msg.header), |msg.body| % 0x1_0000_0000;
                msg.header ==
                MessageHeader(h.version, h.priority, h.kind, h.flags, h.id, length, if h.timestamp == 0 then now else h.timestamp,
                              h.ttl, |msg.routingKey|, if length == 0 then 0 else codec.crc(msg.body))
      ensures msg != null ==> msg.routingKey == old(msg.routingKey) && msg.body == old(msg.body)
      ensures msg != null && r.Err? ==>
                && msg.rawData == old(msg.rawData)
                && old(msg.header) == msg.header.(routingKeyLength := old(msg.header.routingKeyLength),
                                                  bodyLength := old(msg.header.bodyLength))
    {
      if msg == null {
        return Err(NoMessage);
      }
      if |msg.routingKey| > MAX_ROUTING_KEY {
        return Err(RoutingKeyTooLong);
      }
      msg.header := msg.header.(routingKeyLength := |msg.routingKey|);
      msg.header := msg.header.(bodyLength := |msg.body| % 0x1_0000_0000);
      if msg.header.bodyLength > codec.maxBodySize % 0x1_0000_0000 {
        return Err(BodyTooLarge);
      }
      if msg.header.timestamp == 0 {
        msg.header := msg.header.(timestamp := now);
      }
      msg.header := msg.header.(bodyChecksum := if msg.header.bodyLength > 0 then codec.crc(msg.body) else 0);
      var buffer := PutFields(msg.header);
      buffer := buffer + Put32(codec.crc(buffer));
      buffer := buffer + msg.routingKey;
      if msg.header.bodyLength > 0 {
        buffer := buffer + msg.body;
      } else {
        assert buffer + [] == buffer;
      }
      msg.rawData := Some(buffer);
      return Ok(buffer);
    }

    method DecodeMessage(data: Bytes) returns (r: Result<Message>)
      modifies this
      ensures match codec.Decode(data)
              case Err(e) => r == Err(e) && processCounter == old(processCounter)
              case Ok(content) =>
                && r.Ok? && fresh(r.value) && r.value.Value() == content && r.value.rawData == Some(data)
                && processCounter == old(processCounter) + 1
    {
      if |data| < HEADER_SIZE {
        return Err(HeaderMissing);
      }
      var header := GetFields(data[..FIELDS_SIZE]);
      if codec.crc(data[..FIELDS_SIZE]) != Get32(data[FIELDS_SIZE..HEADER_SIZE]) {
        return Err(HeaderChecksumMismatch);
      }
      var routingKeyEnd := HEADER_SIZE + header.routingKeyLength;
      if |data| < routingKeyEnd {
        return Err(RoutingKeyMissing);
      }
      var routingKey: Bytes := if header.routingKeyLength > 0 then data[HEADER_SIZE..routingKeyEnd] else [];
      var expectedEnd := routingKeyEnd + header.bodyLength;
      if |data| < expectedEnd {
        return Err(BodyMissing);
      }
      var body: Bytes := [];
      if header.bodyLength > 0 {
        body := data[routingKeyEnd..expectedEnd];
        if codec.crc(body) != header.bodyChecksum {
          return Err(BodyChecksumMismatch);
        }
      }
      var msg := new Message(Content(header, routingKey, body), Some(data));
      processCounter := processCounter + 1;
      return Ok(msg);
    }

    /** ReadMessage on a shared buffered reader: it takes the bytes of one message and no more. */
    method ReadMessage(reader: BufReader) returns (r: Result<Message>)
      requires reader.Valid()
      modifies this, reader, reader.source
      ensures reader.Valid()
      ensures var reading := codec.Read(old(reader.Pending()));
              && reader.Pending() == reading.rest
              && (reading.result.Err? ==> r == Err(reading.result.error))
              && (reading.result.Ok? ==>
                    && r.Ok? && fresh(r.value) && r.value.Value() == reading.result.value
                    && r.value.rawData.Some? && old(reader.Pending()).bytes == r.value.rawData.value + reading.rest.bytes)
    {
      hide GetFields, MessageCodec.Decode;
      var headerData := reader.ReadFull(HEADER_SIZE);
      if headerData.Err? {
        return Err(headerData.error);
      }
      var header := GetFields(headerData.value[..FIELDS_SIZE]);
      var remaining := reader.ReadFull(header.routingKeyLength as nat + header.bodyLength as nat);
      if remaining.Err? {
        return Err(remaining.error);
      }
      r := DecodeMessage(headerData.value + remaining.value);
    }

    /** WriteMessage sends the cached bytes if there are any, and else the encoded message. */
    method WriteMessage(writer: Sink?, msg: Message?, now: I64) returns (error: Option<Error>)
      modifies writer, msg
      ensures writer == null || msg == null ==> error == Some(NoMessage)
      ensures writer != null && msg != null ==>
                match codec.Sent(old(msg.Value()), old(msg.rawData), now)
                case Err(e) => error == Some(e) && writer.written == old(writer.written)
                case Ok(bytes) =>
                  && writer.written == old(writer.written) + old(writer.quota).Accepted(bytes)
                  && (error.None? <==> old(writer.quota).Admits(|bytes|))
                  && msg.rawData == Some(bytes)
    {
      if writer == null || msg == null {
        return Some(NoMessage);
      }
      var data;
      if msg.rawData.Some? {
        data := msg.rawData.value;
      } else {
        var encoded := EncodeMessage(msg, now);
        if encoded.Err? {
          return Some(encoded.error);
        }
        data := encoded.value;
      }
      var n;
      n, error := writer.Write(data);
    }
  }
}
