/** What the message format guarantees. */
module MessageTheory {
  import opened ByteOrder
  import opened IO
  import opened Messages

  /** What is left of a header on the wire: four fields keep their low four bits only. */
  function Reduced(h: MessageHeader): MessageHeader {
    h.(version := h.version % 0x10, priority := h.priority % 0x10, kind := h.kind % 0x10, flags := h.flags % 0x10)
  }

  /** The fields of an encoded header, one by one. */
  lemma FieldSlices(h: MessageHeader)
    ensures var b := PutFields(h);
            && b[0] == Nibbles(h.version, h.priority)
            && b[1] == Nibbles(h.kind, h.flags)
            && b[2..6] == Put32(h.id)
            && b[6..10] == Put32(h.bodyLength)
            && b[10..18] == Put64(ToUnsigned(h.timestamp))
            && b[18..20] == Put16(h.ttl)
            && b[20] == h.routingKeyLength
            && b[21..25] == Put32(h.bodyChecksum)
  {
    hide Put32, Put64, Put16, Nibbles;
    var b := PutFields(h);
    assert b[2..6] == Put32(h.id);
    assert b[6..10] == Put32(h.bodyLength);
    assert b[10..18] == Put64(ToUnsigned(h.timestamp));
    assert b[18..20] == Put16(h.ttl);
    assert b[21..25] == Put32(h.bodyChecksum);
  }

  /** Reading back an encoded header gives it reduced. */
  lemma GetPutFields(h: MessageHeader)
    ensures GetFields(PutFields(h)) == Reduced(h)
  {
    hide Put32, Put64, Put16, Get32, Get64, Get16, PutFields;
    FieldSlices(h);
    GetPut32(h.id);
    GetPut32(h.bodyLength);
    GetPut64(ToUnsigned(h.timestamp));
    GetPut16(h.ttl);
    GetPut32(h.bodyChecksum);
    NibblesBack(h.version, h.priority);
    NibblesBack(h.kind, h.flags);
  }

  lemma NibblesBack(a: int, b: int)
    ensures Nibbles(a, b) / 0x10 == a % 0x10 && Nibbles(a, b) % 0x10 == b % 0x10
  {
  }

  /** Every 25 bytes are the encoding of the header they decode to. */
  lemma PutGetFields(b: Bytes)
    requires |b| == FIELDS_SIZE
    ensures PutFields(GetFields(b)) == b
  {
    hide Put32, Put64, Put16, Get32, Get64, Get16;
    PutGet32(b[2..6]);
    PutGet32(b[6..10]);
    PutGet64(b[10..18]);
    PutGet16(b[18..20]);
    PutGet32(b[21..25]);
    UnsignedAgain(Get64(b[10..18]));
    NibblesWhole(b[0]);
    NibblesWhole(b[1]);
    Pieces(b);
  }

  lemma UnsignedAgain(n: U64)
    ensures ToUnsigned(ToSigned(n)) == n
  {
  }

  lemma NibblesWhole(n: Byte)
    ensures Nibbles(n / 0x10, n % 0x10) == n
  {
  }

  lemma Pieces(b: Bytes)
    requires |b| == FIELDS_SIZE
    ensures b == [b[0], b[1]] + b[2..6] + b[6..10] + b[10..18] + b[18..20] + [b[20]] + b[21..25]
  {
  }

  /** What a receiver gets of a message. */
  function Received(codec: MessageCodec, m: Content, now: I64): Content
    requires |m.routingKey| <= MAX_ROUTING_KEY
  {
    m.(header := Reduced(codec.Complete(m, now)))
  }

  /** Decoding, in terms of the parts that encoding puts together. */
  lemma DecodeParts(codec: MessageCodec, h: MessageHeader, key: Bytes, rest: Bytes)
    requires h.routingKeyLength == |key|
    ensures var fields := PutFields(h);
            var n := h.bodyLength;
            codec.Decode(fields + Put32(codec.crc(fields)) + key + rest) ==
            if |rest| < n then Err(BodyMissing)
            else if n > 0 && codec.crc(rest[..n]) != h.bodyChecksum then Err(BodyChecksumMismatch)
            else Ok(Content(Reduced(h), key, rest[..n]))
  {
    hide Put32, Get32, PutFields, GetFields;
    var fields := PutFields(h);
    var check := Put32(codec.crc(fields));
    var data := fields + check + key + rest;
    assert data[..FIELDS_SIZE] == fields;
    assert data[FIELDS_SIZE..HEADER_SIZE] == check;
    GetPut32(codec.crc(fields));
    GetPutFields(h);
    var keyEnd := HEADER_SIZE + |key|;
    assert data[HEADER_SIZE..keyEnd] == key;
    if h.bodyLength <= |rest| {
      assert data[keyEnd..keyEnd + h.bodyLength] == rest[..h.bodyLength];
    }
  }

  /**
   * Main result on messages. Whatever follows it on the wire, an encoded message is decoded to the
   * message it was, if and only if its body is shorter than 4 GiB: key, body, identifier and time to
   * live are exact, version, priority, type and flags are reduced to four bits, the timestamp is the
   * time of encoding if there was none, and lengths and checksum are those of the key and the body. A message that is not encoded has a routing
   * key of more than 255 bytes, or a body whose truncated length exceeds the limit.
   */
  lemma MessageRoundTrip(codec: MessageCodec, m: Content, now: I64, suffix: Bytes)
    ensures match codec.Encode(m, now)
            case Ok(wire) =>
              && |m.routingKey| <= 255
              && (codec.Decode(wire + suffix) == Ok(Received(codec, m, now)) <==> |m.body| < 0x1_0000_0000)
              && (|m.body| < 0x1_0000_0000 ==>
                    codec.Decode(wire + suffix) ==
                    Ok(Content(MessageHeader(m.header.version % 0x10, m.header.priority % 0x10, m.header.kind % 0x10,
                                             m.header.flags % 0x10, m.header.id, |m.body|,
                                             if m.header.timestamp == 0 then now else m.header.timestamp, m.header.ttl,
                                             |m.routingKey|, if m.body == [] then 0 else codec.crc(m.body)),
                               m.routingKey, m.body)))
            case Err(e) =>
              if |m.routingKey| > 255 then e == RoutingKeyTooLong
              else e == BodyTooLarge && |m.body| % 0x1_0000_0000 > codec.maxBodySize % 0x1_0000_0000
  {
    if codec.Encode(m, now).Ok? {
      EncodedBack(codec, m, now, suffix);
    }
  }

  /**
   * An encoded message comes back as it was completed, with nothing reduced, exactly if besides its
   * version, priority, type and flags are below 16.
   */
  lemma NothingReduced(codec: MessageCodec, m: Content, now: I64, suffix: Bytes)
    requires codec.Encode(m, now).Ok?
    ensures codec.Decode(codec.Encode(m, now).value + suffix) == Ok(m.(header := codec.Complete(m, now))) <==>
            && |m.body| < 0x1_0000_0000
            && m.header.version < 0x10 && 0 <= m.header.priority < 0x10
            && 0 <= m.header.kind < 0x10 && m.header.flags < 0x10
  {
    hide MessageCodec.Decode, MessageCodec.Encode;
    MessageRoundTrip(codec, m, now, suffix);
    if |m.body| >= 0x1_0000_0000 {
      LongBodyLost(codec, m, now, suffix);
    }
  }

  /** A body of 4 GiB or more never comes back whole. */
  lemma LongBodyLost(codec: MessageCodec, m: Content, now: I64, suffix: Bytes)
    requires codec.Encode(m, now).Ok? && |m.body| >= 0x1_0000_0000
    ensures var p := codec.Decode(codec.Encode(m, now).value + suffix);
            p.Ok? ==> p.value.body != m.body
  {
    var data := codec.Encode(m, now).value + suffix;
    if codec.Decode(data).Ok? {
      DecodedParts(codec, data);
    }
  }

  lemma EncodedBack(codec: MessageCodec, m: Content, now: I64, suffix: Bytes)
    requires codec.Encode(m, now).Ok?
    ensures codec.Decode(codec.Encode(m, now).value + suffix) == Ok(Received(codec, m, now))
            <==> |m.body| < 0x1_0000_0000
  {
    hide MessageCodec.Decode, Put32, PutFields, Reduced;
    var h := codec.Complete(m, now);
    var sent := if h.bodyLength > 0 then m.body else [];
    var front := PutFields(h) + Put32(codec.crc(PutFields(h))) + m.routingKey;
    assert front + sent + suffix == front + (sent + suffix);
    DecodeParts(codec, h, m.routingKey, sent + suffix);
    if |m.body| < 0x1_0000_0000 {
      assert (sent + suffix)[..h.bodyLength] == m.body;
    }
  }

  /** The number of bytes a decoded message occupies. */
  function Extent(m: Content): nat {
    HEADER_SIZE + m.header.routingKeyLength + m.header.bodyLength
  }

  /** Headers with different fields have different bytes. */
  lemma FieldsDiffer(a: MessageHeader, b: MessageHeader)
    requires PutFields(a) == PutFields(b)
    ensures Reduced(a) == Reduced(b)
  {
    hide PutFields, GetFields, Reduced;
    GetPutFields(a);
    GetPutFields(b);
  }

  /** Encoding a message again has nothing to fill in: its timestamp is set, and an absent body has no checksum. */
  predicate FilledIn(h: MessageHeader, now: I64) {
    (h.timestamp != 0 || now == 0) && (h.bodyLength > 0 || h.bodyChecksum == 0)
  }

  /**
   * Canonical form: encoding a decoded message gives its bytes again, exactly when its body is within
   * the limit of the encoder and there is nothing to fill in.
   */
  lemma Canonical(codec: MessageCodec, data: Bytes, now: I64)
    requires codec.Decode(data).Ok?
    ensures var m := codec.Decode(data).value;
            && Extent(m) <= |data|
            && (codec.Encode(m, now) == Ok(data[..Extent(m)]) <==>
                  !codec.TooLarge(m.header.bodyLength) && FilledIn(m.header, now))
  {
    hide MessageCodec.Decode, MessageCodec.Encode, Put32, PutFields, GetFields, FilledIn, Reduced;
    DecodedParts(codec, data);
    var m := codec.Decode(data).value;
    var fields, whole := data[..FIELDS_SIZE], data[..Extent(m)];
    EncodedParts(codec, m, now);
    if !codec.TooLarge(m.header.bodyLength) {
      var h := codec.Complete(m, now);
      PutGetFields(fields);
      Completes(codec, m, now);
      if h != m.header {
        HeadersDiffer(h, m.header);
        assert codec.Encode(m, now).value[..FIELDS_SIZE] == PutFields(h);
        assert whole[..FIELDS_SIZE] == fields;
      }
    }
  }

  /**
   * DecodeMessage caches all the bytes it was given. Encoding the message again gives that cache
   * exactly if, beside the conditions for canonical form, nothing followed the message.
   */
  lemma CacheAgain(codec: MessageCodec, data: Bytes, now: I64)
    requires codec.Decode(data).Ok?
    ensures var m := codec.Decode(data).value;
            codec.Encode(m, now) == Ok(data) <==>
            |data| == Extent(m) && !codec.TooLarge(m.header.bodyLength) && FilledIn(m.header, now)
  {
    DecodedParts(codec, data);
    hide MessageCodec.Decode, MessageCodec.Encode, Put32, PutFields, GetFields, FilledIn;
    Canonical(codec, data, now);
    var m := codec.Decode(data).value;
    EncodedParts(codec, m, now);
    if !codec.TooLarge(m.header.bodyLength) {
      assert |codec.Encode(m, now).value| == Extent(m);
      assert |data| == Extent(m) ==> data[..Extent(m)] == data;
    }
  }

  /** Encoding finds nothing to fill in. */
  lemma Completes(codec: MessageCodec, m: Content, now: I64)
    requires |m.routingKey| == m.header.routingKeyLength && |m.body| == m.header.bodyLength
    requires m.header.bodyLength > 0 ==> m.header.bodyChecksum == codec.crc(m.body)
    ensures codec.Complete(m, now) == m.header <==> FilledIn(m.header, now)
  {
  }

  lemma EncodedParts(codec: MessageCodec, m: Content, now: I64)
    requires |m.routingKey| == m.header.routingKeyLength && |m.body| == m.header.bodyLength
    ensures var fields := PutFields(codec.Complete(m, now));
            codec.Encode(m, now) ==
            if codec.TooLarge(m.header.bodyLength) then Err(BodyTooLarge)
            else Ok(fields + Put32(codec.crc(fields)) + m.routingKey + m.body)
  {
    hide PutFields, Put32;
  }

  /** Different headers have different bytes, if they agree in the fields that are reduced. */
  lemma HeadersDiffer(h: MessageHeader, g: MessageHeader)
    requires h.version == g.version && h.priority == g.priority && h.kind == g.kind && h.flags == g.flags
    ensures PutFields(h) == PutFields(g) <==> h == g
  {
    hide PutFields;
    if PutFields(h) == PutFields(g) {
      FieldsDiffer(h, g);
    }
  }

  /** The parts of the bytes that were decoded. */
  lemma DecodedParts(codec: MessageCodec, data: Bytes)
    requires codec.Decode(data).Ok?
    ensures var m := codec.Decode(data).value;
            && Extent(m) <= |data|
            && |m.routingKey| == m.header.routingKeyLength && |m.body| == m.header.bodyLength
            && m.header == GetFields(data[..FIELDS_SIZE])
            && data[..Extent(m)] ==
               data[..FIELDS_SIZE] + Put32(codec.crc(data[..FIELDS_SIZE])) + m.routingKey + m.body
            && (m.header.bodyLength > 0 ==> m.header.bodyChecksum == codec.crc(m.body))
  {
    hide Put32, Get32, GetFields;
    var m := codec.Decode(data).value;
    PutGet32(data[FIELDS_SIZE..HEADER_SIZE]);
    var keyEnd := HEADER_SIZE + m.header.routingKeyLength;
    assert data[..Extent(m)] ==
           data[..FIELDS_SIZE] + data[FIELDS_SIZE..HEADER_SIZE] + data[HEADER_SIZE..keyEnd] + data[keyEnd..Extent(m)];
  }

  /** Encoding a message again gives the same bytes, unless its timestamp came out zero and is now filled in. */
  lemma EncodeAgain(codec: MessageCodec, m: Content, now: I64, later: I64)
    requires codec.Encode(m, now).Ok?
    ensures var completed := m.(header := codec.Complete(m, now));
            codec.Encode(completed, later) == codec.Encode(m, now) <==>
            completed.header.timestamp != 0 || later == 0
  {
    hide PutFields, Put32;
    var completed := m.(header := codec.Complete(m, now));
    var first, again := completed.header, codec.Complete(completed, later);
    if first.timestamp == 0 && later != 0 && codec.Encode(completed, later) == codec.Encode(m, now) {
      assert PutFields(first) == codec.Encode(m, now).value[..FIELDS_SIZE];
      assert PutFields(again) == codec.Encode(completed, later).value[..FIELDS_SIZE];
      FieldsDiffer(first, again);
      assert false;
    }
  }

  /**
   * A received message is valid, for a receiver with a limit of its own, exactly if its version is not
   * a multiple of 16, its body is within that limit, and its time to live has not passed: its lengths
   * are right by construction.
   */
  lemma ReceivedIsValid(sender: MessageCodec, receiver: MessageCodec, m: Content, sent: I64, now: int)
    requires sender.Encode(m, sent).Ok? && |m.body| < 0x1_0000_0000
    ensures var r := Received(sender, m, sent);
            receiver.Validate(r, now) == None <==>
            m.header.version % 0x10 != 0
            && |m.body| <= receiver.maxBodySize % 0x1_0000_0000
            && (m.header.ttl == 0 || now - r.header.timestamp <= m.header.ttl * SECOND)
  {
  }

  /**
   * A message that the encoder stamped is valid for its time to live from then on, whatever its
   * receiver's clock and limit, if its version is not a multiple of 16 and its body is within the limit.
   */
  lemma StampedIsValid(sender: MessageCodec, receiver: MessageCodec, m: Content, sent: I64, now: int, suffix: Bytes)
    requires m.header.timestamp == 0 && |m.body| < 0x1_0000_0000
    requires sender.Encode(m, sent).Ok? && sender.crc == receiver.crc
    ensures var got := receiver.Decode(sender.Encode(m, sent).value + suffix);
            && got.Ok?
            && (receiver.Validate(got.value, now) == None <==>
                m.header.version % 0x10 != 0
                && |m.body| <= receiver.maxBodySize % 0x1_0000_0000
                && (m.header.ttl == 0 || now - sent <= m.header.ttl * 1_000_000_000))
  {
    hide MessageCodec.Validate, MessageCodec.Encode, Received;
    MessageRoundTrip(sender, m, sent, suffix);
    SameDecode(sender, receiver, sender.Encode(m, sent).value + suffix);
    ReceivedIsValid(sender, receiver, m, sent, now);
  }

  lemma SameDecode(a: MessageCodec, b: MessageCodec, data: Bytes)
    requires a.crc == b.crc
    ensures a.Decode(data) == b.Decode(data)
  {
  }

  /**
   * When a message is valid, and what that is good for: it is encoded, and what its receiver decodes
   * has the lengths that its header announced before.
   */
  lemma ValidIsEncoded(codec: MessageCodec, m: Content, now: int, sent: I64)
    requires |m.routingKey| <= 255 && |m.body| < 0x1_0000_0000
    ensures codec.Validate(m, now) == None <==>
            && m.header.version != 0
            && m.header.bodyLength == |m.body| <= codec.maxBodySize % 0x1_0000_0000
            && m.header.routingKeyLength == |m.routingKey|
            && (m.header.ttl == 0 || now - m.header.timestamp <= m.header.ttl * 1_000_000_000)
    ensures codec.Validate(m, now) == None ==>
              && codec.Encode(m, sent).Ok?
              && var got := codec.Decode(codec.Encode(m, sent).value);
                 && got.Ok? && got.value.header.bodyLength == m.header.bodyLength
                 && got.value.header.routingKeyLength == m.header.routingKeyLength
  {
    hide MessageCodec.Decode, MessageCodec.Encode, Received;
    MessageRoundTrip(codec, m, sent, []);
    if codec.Encode(m, sent).Ok? {
      assert codec.Encode(m, sent).value + [] == codec.Encode(m, sent).value;
    }
  }

  // ----- messages on a shared buffered reader -----

  /** Every byte string a read accepts is taken off the input whole, and decodes on its own. */
  lemma ReadTakesExtent(codec: MessageCodec, input: Input)
    requires codec.Read(input).result.Ok?
    ensures var r := codec.Read(input);
            && Extent(r.result.value) <= |input.bytes|
            && r.rest == Input(input.bytes[Extent(r.result.value)..], input.ending)
            && codec.Decode(input.bytes[..Extent(r.result.value)]) == r.result
  {
    hide GetFields;
    var h := GetFields(input.bytes[..HEADER_SIZE][..FIELDS_SIZE]);
    var n := h.routingKeyLength as nat + h.bodyLength as nat;
    var whole := input.bytes[..HEADER_SIZE] + input.bytes[HEADER_SIZE..][..n];
    assert whole == input.bytes[..HEADER_SIZE + n];
    assert whole[..FIELDS_SIZE] == input.bytes[..HEADER_SIZE][..FIELDS_SIZE];
    assert input.bytes[HEADER_SIZE..][n..] == input.bytes[HEADER_SIZE + n..];
  }

  /** Bytes are read as a message, and nothing behind them is taken, exactly if they decode to it and are no longer than it. */
  lemma ReadExactly(codec: MessageCodec, wire: Bytes, m: Content, suffix: Bytes, ending: Ending)
    ensures codec.Read(Input(wire + suffix, ending)) == Reading(Ok(m), Input(suffix, ending)) <==>
            codec.Decode(wire) == Ok(m) && |wire| == Extent(m)
  {
    hide MessageCodec.Read, MessageCodec.Decode;
    var input := Input(wire + suffix, ending);
    if codec.Read(input) == Reading(Ok(m), Input(suffix, ending)) {
      ReadTakesExtent(codec, input);
      assert |wire + suffix| == Extent(m) + |suffix|;
      assert (wire + suffix)[..|wire|] == wire;
    }
    if codec.Decode(wire) == Ok(m) && |wire| == Extent(m) {
      ReadWhole(codec, wire, suffix, ending);
    }
  }

  lemma ReadWhole(codec: MessageCodec, wire: Bytes, suffix: Bytes, ending: Ending)
    requires codec.Decode(wire).Ok? && |wire| == Extent(codec.Decode(wire).value)
    ensures codec.Read(Input(wire + suffix, ending)) == Reading(codec.Decode(wire), Input(suffix, ending))
  {
    DecodedParts(codec, wire);
    hide MessageCodec.Decode, GetFields;
    var head, tail := wire[..HEADER_SIZE], wire[HEADER_SIZE..];
    assert wire + suffix == head + (tail + suffix);
    TakePrefix(head, tail + suffix, ending);
    TakePrefix(tail, suffix, ending);
    assert head[..FIELDS_SIZE] == wire[..FIELDS_SIZE];
    assert head + tail == wire;
  }

  /** A message with its cache, and the time at which it is written. */
  datatype Sending = Sending(content: Content, cache: Option<Bytes>, time: I64)

  function Wire(codec: MessageCodec, s: Sending): Result<Bytes> {
    codec.Sent(s.content, s.cache, s.time)
  }

  /** The message as its receiver should get it. */
  function AsReceived(codec: MessageCodec, s: Sending): Content
    requires Wire(codec, s).Ok?
  {
    if s.cache.Some? then s.content.(header := Reduced(s.content.header)) else Received(codec, s.content, s.time)
  }

  /** What is sent is the message, all of it, and nothing else. */
  predicate Intact(codec: MessageCodec, s: Sending) {
    && Wire(codec, s).Ok?
    && codec.Decode(Wire(codec, s).value) == Ok(AsReceived(codec, s))
    && |Wire(codec, s).value| == Extent(AsReceived(codec, s))
  }

  /** A message without a cache is intact if it can be sent and is shorter than 4 GiB. */
  lemma UncachedIntact(codec: MessageCodec, s: Sending)
    requires s.cache.None?
    ensures Intact(codec, s) <==> codec.Encode(s.content, s.time).Ok? && |s.content.body| < 0x1_0000_0000
  {
    hide MessageCodec.Decode, PutFields, Put32;
    var encoded := codec.Encode(s.content, s.time);
    MessageRoundTrip(codec, s.content, s.time, []);
    if encoded.Ok? {
      assert encoded.value + [] == encoded.value;
    }
  }

  /** EncodeMessage leaves an intact message, if its body is shorter than 4 GiB. */
  lemma EncodeCaches(codec: MessageCodec, m: Content, now: I64, later: I64)
    requires codec.Encode(m, now).Ok?
    ensures var cached := Sending(m.(header := codec.Complete(m, now)), Some(codec.Encode(m, now).value), later);
            Intact(codec, cached) <==> |m.body| < 0x1_0000_0000
  {
    hide MessageCodec.Decode, MessageCodec.Encode;
    UncachedIntact(codec, Sending(m, None, now));
    MessageRoundTrip(codec, m, now, []);
    assert codec.Encode(m, now).value + [] == codec.Encode(m, now).value;
  }

  lemma DecodedReduced(codec: MessageCodec, data: Bytes)
    requires codec.Decode(data).Ok?
    ensures Reduced(codec.Decode(data).value.header) == codec.Decode(data).value.header
  {
    DecodedParts(codec, data);
  }

  /** DecodeMessage leaves an intact message exactly if nothing followed it in the bytes it was given. */
  lemma DecodeCaches(codec: MessageCodec, data: Bytes, time: I64)
    requires codec.Decode(data).Ok?
    ensures Intact(codec, Sending(codec.Decode(data).value, Some(data), time)) <==>
            |data| == Extent(codec.Decode(data).value)
  {
    hide MessageCodec.Decode, Reduced;
    DecodedReduced(codec, data);
  }

  /** ReadMessage, which caches the bytes it takes, leaves an intact message. */
  lemma ReadCaches(codec: MessageCodec, input: Input, cache: Bytes, time: I64)
    requires codec.Read(input).result.Ok?
    requires input.bytes == cache + codec.Read(input).rest.bytes
    ensures Intact(codec, Sending(codec.Read(input).result.value, Some(cache), time))
  {
    hide MessageCodec.Decode, MessageCodec.Read, Reduced;
    var m := codec.Read(input).result.value;
    ReadTakesExtent(codec, input);
    assert |input.bytes| == |cache| + |codec.Read(input).rest.bytes|;
    assert input.bytes[..Extent(m)] == cache;
    DecodeCaches(codec, cache, time);
  }

  predicate AllSendable(codec: MessageCodec, messages: seq<Sending>) {
    forall i :: 0 <= i < |messages| ==> Wire(codec, messages[i]).Ok?
  }

  predicate AllIntact(codec: MessageCodec, messages: seq<Sending>) {
    forall i :: 0 <= i < |messages| ==> Intact(codec, messages[i])
  }

  function SendAll(codec: MessageCodec, messages: seq<Sending>): Bytes
    requires AllSendable(codec, messages)
  {
    if messages == [] then [] else Wire(codec, messages[0]).value + SendAll(codec, messages[1..])
  }

  function ReceivedAll(codec: MessageCodec, messages: seq<Sending>): (r: seq<Content>)
    requires AllSendable(codec, messages)
    ensures |r| == |messages|
  {
    if messages == [] then [] else [AsReceived(codec, messages[0])] + ReceivedAll(codec, messages[1..])
  }

  datatype Batch = Batch(messages: seq<Content>, error: Option<Error>, rest: Input)

  /** Reads n messages, up to the first that fails. */
  function ReadEach(codec: MessageCodec, input: Input, n: nat): Batch
    decreases n
  {
    hide MessageCodec.Read;
    if n == 0 then Batch([], None, input)
    else
      var r := codec.Read(input);
      if r.result.Err? then Batch([], Some(r.result.error), r.rest)
      else
        var later := ReadEach(codec, r.rest, n - 1);
        Batch([r.result.value] + later.messages, later.error, later.rest)
  }

  /** Any list of intact messages, cached or not, written one after the other, is read back as the same list. */
  lemma {:induction false} ReadAllBack(codec: MessageCodec, messages: seq<Sending>, suffix: Bytes, ending: Ending)
    requires AllSendable(codec, messages) && AllIntact(codec, messages)
    ensures ReadEach(codec, Input(SendAll(codec, messages) + suffix, ending), |messages|) ==
            Batch(ReceivedAll(codec, messages), None, Input(suffix, ending))
  {
    hide MessageCodec.Read, MessageCodec.Decode, Wire, AsReceived;
    if messages == [] {
      assert SendAll(codec, messages) + suffix == suffix;
    } else {
      var first, later := Wire(codec, messages[0]).value, SendAll(codec, messages[1..]);
      assert SendAll(codec, messages) + suffix == first + (later + suffix);
      ReadExactly(codec, first, AsReceived(codec, messages[0]), later + suffix, ending);
      ReadAllBack(codec, messages[1..], suffix, ending);
    }
  }

  /** The messages come back as they are, one by one, and nothing is left. */
  predicate ComesBack(codec: MessageCodec, messages: seq<Sending>)
    requires AllSendable(codec, messages)
  {
    ReadEach(codec, Input(SendAll(codec, messages), Done), |messages|) ==
    Batch(ReceivedAll(codec, messages), None, Input([], Done))
  }

  /** Behind intact messages, one that is not intact is noticed. */
  lemma {:induction false} LastFails(codec: MessageCodec, messages: seq<Sending>, s: Sending)
    requires AllSendable(codec, messages + [s]) && AllIntact(codec, messages)
    ensures ComesBack(codec, messages + [s]) <==> Intact(codec, s)
  {
    hide MessageCodec.Read, MessageCodec.Decode, AsReceived, Wire;
    var all := messages + [s];
    if messages == [] {
      assert all == [s] && all[1..] == [];
      var wire := Wire(codec, all[0]).value;
      assert SendAll(codec, all) == wire + [];
      ReadExactly(codec, wire, AsReceived(codec, all[0]), [], Done);
    } else {
      assert all[1..] == messages[1..] + [s] && all[0] == messages[0];
      var wire, later := Wire(codec, all[0]).value, SendAll(codec, all[1..]);
      ReadExactly(codec, wire, AsReceived(codec, all[0]), later, Done);
      LastFails(codec, messages[1..], s);
      var batch := ReadEach(codec, Input(later, Done), |messages|);
      assert ([AsReceived(codec, all[0])] + batch.messages)[1..] == batch.messages;
      assert ReceivedAll(codec, all)[1..] == ReceivedAll(codec, all[1..]);
    }
  }

  /** Main result on lists of messages: what was written comes back after each message exactly if all of them are intact. */
  lemma {:induction false} ReadBackExactly(codec: MessageCodec, messages: seq<Sending>)
    requires AllSendable(codec, messages)
    ensures AllIntact(codec, messages) <==> forall k :: 0 <= k <= |messages| ==> ComesBack(codec, messages[..k])
  {
    hide ReadEach, SendAll, ReceivedAll, Intact, Wire;
    forall k | 0 <= k <= |messages| && AllIntact(codec, messages) ensures ComesBack(codec, messages[..k]) {
      ReadAllBack(codec, messages[..k], [], Done);
      assert SendAll(codec, messages[..k]) + [] == SendAll(codec, messages[..k]);
    }
    if messages != [] && forall k :: 0 <= k <= |messages| ==> ComesBack(codec, messages[..k]) {
      var n := |messages| - 1;
      var front := messages[..n];
      assert forall k :: 0 <= k <= n ==> front[..k] == messages[..k];
      ReadBackExactly(codec, front);
      assert messages == front + [messages[n]] && messages[..|messages|] == messages;
      LastFails(codec, front, messages[n]);
    }
  }
}
