/** The large-message connection: chunked reads and writes over buffers, with statistics. */
module LargeMessages {
  import opened ByteOrder
  import opened IO
  import opened Buffered
  import opened Sizes

  const MAX_BUFFER_SIZE := 2048 * KB

  datatype Options = Options(chunkSize: int, adaptiveChunking: bool, readBufferSize: int, writeBufferSize: int)

  function AdaptiveChunk(messageSize: int): int {
    if messageSize > LARGE_MESSAGE then HUGE_CHUNK
    else if messageSize > MEDIUM_MESSAGE then LARGE_CHUNK
    else if messageSize > SMALL_MESSAGE then MEDIUM_CHUNK
    else SMALL_CHUNK
  }

  function Max(a: int, b: int): int {
    if a > b then a else b
  }

  /** Go's messageSize / 8, capped; division truncates towards zero. */
  function IdealBuffer(messageSize: int): int {
    var ideal := if messageSize >= 0 then messageSize / 8 else -(-messageSize / 8);
    if ideal > MAX_BUFFER_SIZE then MAX_BUFFER_SIZE else ideal
  }

  function AdjustBufferSizes(o: Options, messageSize: int): Options {
    Options(
      if o.adaptiveChunking then AdaptiveChunk(messageSize) else o.chunkSize,
      o.adaptiveChunking,
      Max(o.readBufferSize, IdealBuffer(messageSize)),
      Max(o.writeBufferSize, IdealBuffer(messageSize)))
  }

  /**
   * What adapting to a message size comes to: chunks of 4, 16, 64 and 256 KiB, so that a message of up
   * to 1 MiB takes at most 16 of them, and buffers for an eighth of it, of at most 2 MiB, but never
   * less than was asked for.
   */
  lemma Adapted(o: Options, size: int)
    requires o.adaptiveChunking
    ensures var a := AdjustBufferSizes(o, size);
            var chunks := (size + a.chunkSize - 1) / a.chunkSize;
            && a.chunkSize == (if size <= 0x4000 then 0x1000 else if size <= 0x2_0000 then 0x4000
                               else if size <= 0x10_0000 then 0x1_0000 else 0x4_0000)
            && (0 < size <= 0x10_0000 ==> 1 <= chunks <= 16)
            && a.readBufferSize >= o.readBufferSize && a.writeBufferSize >= o.writeBufferSize
            && (0 <= size <= 0x100_0000 ==> 8 * a.readBufferSize > size - 8 && 8 * a.writeBufferSize > size - 8)
            && (size > 0x100_0000 ==> a.readBufferSize >= 0x20_0000 && a.writeBufferSize >= 0x20_0000)
            && a.readBufferSize in {o.readBufferSize, IdealBuffer(size)} && IdealBuffer(size) <= 0x20_0000
            && a.writeBufferSize in {o.writeBufferSize, IdealBuffer(size)}
  {
  }

  /** The number of chunks of c bytes that n bytes fill, the last one perhaps in part. */
  function Chunks(n: nat, c: nat): (r: nat)
    requires c > 0
  {
    (n + c - 1) / c
  }

  /** Taking one chunk away leaves one chunk less. */
  lemma ChunksStep(n: nat, c: nat)
    requires c > 0 && n > 0
    ensures Chunks(n, c) == 1 + (if n > c then Chunks(n - c, c) else 0)
    ensures n > c ==> Chunks(n - c, c) > 0
  {
    if n > c {
      DivMod(n + c - 1, c, 1 + (n - 1) / c, (n - 1) % c);
      assert n - c + c - 1 == n - 1;
      if (n - 1) / c == 0 {
        DivMod(n - 1, c, 0, n - 1);
        assert false;
      }
    } else {
      DivMod(n + c - 1, c, 1, n - 1);
    }
  }

  lemma QuotientsGrow(a: nat, b: nat, c: nat)
    requires c > 0 && a <= b
    ensures a / c <= b / c
  {
    if b / c < a / c {
      TimesLess(b / c, a / c, c);
    }
  }

  /** The whole chunks in n bytes, with more bytes behind them. */
  lemma WholeChunks(n: nat, more: nat, c: nat)
    requires c > 0
    ensures n / c <= (n + more) / c && n / c <= Chunks(n, c)
    ensures more == c ==> n / c + 1 == (n + more) / c
    ensures more > 0 ==> n / c + 1 <= Chunks(n + more, c)
  {
    QuotientsGrow(n, n + more, c);
    QuotientsGrow(n, n + c - 1, c);
    DivMod(n + c, c, n / c + 1, n % c);
    if more > 0 {
      QuotientsGrow(n + c, n + more + c - 1, c);
    }
  }

  lemma SliceOfSlice(b: Bytes, from: nat, to: nat, n: nat)
    requires from + n <= to <= |b|
    ensures b[from..to][..n] == b[from..from + n]
  {
  }

  class LargeMessageConn {
    const reader: BufReader
    const writer: BufWriter
    const chunkSize: int
    var chunksSent: int
    var chunksReceived: int
    var bytesSent: int
    var bytesReceived: int
    var errors: int

    constructor (reader: BufReader, writer: BufWriter, chunkSize: int)
      ensures this.reader == reader && this.writer == writer && this.chunkSize == chunkSize
      ensures chunksSent == chunksReceived == bytesSent == bytesReceived == errors == 0
    {
      this.reader, this.writer, this.chunkSize := reader, writer, chunkSize;
      chunksSent, chunksReceived, bytesSent, bytesReceived, errors := 0, 0, 0, 0, 0;
    }

    /**
     * Write refines a plain write. Whatever fails, the first n bytes of b, and nothing else, were
     * added to what is on the wire or buffered. On success all of b is on the wire behind what was
     * written before, the buffer is empty, and the counters grew by its bytes and its chunks.
     */
    method Write(b: Bytes) returns (n: nat, error: Option<Error>)
      requires writer.Valid() && chunkSize > 0
      modifies this, writer, writer.sink
      ensures writer.Valid()
      ensures n <= |b| && writer.Total() == old(writer.Total()) + b[..n]
      ensures error.None? ==>
                && n == |b| && writer.buffered == []
                && writer.sink.written == old(writer.Total()) + b
                && bytesSent == old(bytesSent) + |b|
                && chunksSent == old(chunksSent) + (if b == [] then 1 else Chunks(|b|, chunkSize))
      ensures error.Some? ==> bytesSent == old(bytesSent) && chunksSent == old(chunksSent)
      ensures old(writer.Healthy()) ==> error.None? && writer.Healthy()
      ensures old(writer.sink.written) <= writer.sink.written
      ensures chunksReceived == old(chunksReceived) && bytesReceived == old(bytesReceived) && errors == old(errors)
    {
      if |b| < chunkSize {
        n, error := writer.Write(b);
        if error.None? {
          error := writer.Flush();
          if error.None? {
            if b != [] {
              ChunksStep(|b|, chunkSize);
            }
            bytesSent, chunksSent := bytesSent + n, chunksSent + 1;
          }
        }
        assert b[..|b|] == b;
        return;
      }
      var chunkCount;
      n, chunkCount, error := WriteChunks(b);
      if n > 0 && error.None? {
        error := writer.Flush();
        if error.None? {
          bytesSent, chunksSent := bytesSent + n, chunksSent + chunkCount;
        }
      }
      assert b[..|b|] == b;
    }

    /** The chunk loop of Write, for a slice of at least one chunk; it leaves the last chunk unflushed. */
    method WriteChunks(b: Bytes) returns (totalWritten: nat, chunkCount: nat, error: Option<Error>)
      requires writer.Valid() && 0 < chunkSize <= |b|
      modifies writer, writer.sink
      ensures writer.Valid()
      ensures totalWritten <= |b| && writer.Total() == old(writer.Total()) + b[..totalWritten]
      ensures error.None? ==> totalWritten == |b| && chunkCount == Chunks(|b|, chunkSize)
      ensures old(writer.Healthy()) ==> error.None? && writer.Healthy()
      ensures old(writer.sink.written) <= writer.sink.written
    {
      totalWritten, chunkCount, error := 0, 0, None;
      var totalChunks := (|b| + chunkSize - 1) / chunkSize;
      while totalWritten < |b|
        invariant writer.Valid() && totalWritten <= |b|
        invariant writer.Total() == old(writer.Total()) + b[..totalWritten]
        invariant chunkCount + (if totalWritten < |b| then Chunks(|b| - totalWritten, chunkSize) else 0) == totalChunks
        invariant error.None?
        invariant old(writer.sink.written) <= writer.sink.written
        invariant old(writer.Healthy()) ==> writer.Healthy()
      {
        ChunksStep(|b| - totalWritten, chunkSize);
        var end := totalWritten + chunkSize;
        if end > |b| {
          end := |b|;
        }
        var chunk := b[totalWritten..end];
        var nw, ew := writer.Write(chunk);
        SliceOfSlice(b, totalWritten, end, nw);
        Grow(old(writer.Total()), b, totalWritten, nw);
        if nw > 0 {
          totalWritten, chunkCount := totalWritten + nw, chunkCount + 1;
          if chunkCount < totalChunks {
            error := writer.Flush();
            if error.Some? {
              return;
            }
          }
        }
        if ew.Some? {
          return totalWritten, chunkCount, ew;
        }
      }
    }

    /**
     * Read delivers the next of the pending bytes, once and in order, in both of its branches. A
     * read of at least a chunk fills its buffer unless the input ends; the end is reported only
     * when nothing is pending. A large read counts at most as many chunks as its bytes fill, and at
     * least one if it filled its buffer.
     */
    method Read(max: nat) returns (data: Bytes, status: Status)
      requires reader.Valid() && chunkSize > 0
      modifies this, reader, reader.source
      ensures reader.Valid() && |data| <= max
      ensures old(reader.Pending()) == Input(data + reader.Pending().bytes, reader.Pending().ending)
      ensures !status.More? ==> status == reader.Pending().ending && reader.Pending().bytes == []
      ensures max >= chunkSize && status.More? ==>
                |data| == max || (reader.Pending().bytes == [] && reader.Pending().ending.Done?)
      ensures old(reader.Alone()) ==> reader.Alone() && (status.Done? ==> data == [])
      ensures chunkSize <= reader.size && status.Done? ==> data == []
      ensures max < chunkSize <= reader.size && !status.More? ==> data == []
      ensures status.More? && max > 0 ==> reader.Measure() < old(reader.Measure())
      ensures max >= chunkSize || status.More? ==> bytesReceived == old(bytesReceived) + |data|
      ensures max < chunkSize ==> chunksReceived == old(chunksReceived) + if status.More? then 1 else 0
      ensures max >= chunkSize ==>
                && old(chunksReceived) <= chunksReceived <= old(chunksReceived) + Chunks(|data|, chunkSize)
                && (|data| == max ==> old(chunksReceived) < chunksReceived)
      ensures bytesSent == old(bytesSent) && chunksSent == old(chunksSent) && errors == old(errors)
    {
      if max < chunkSize {
        data, status := reader.Read(max);
        if status.More? {
          bytesReceived, chunksReceived := bytesReceived + |data|, chunksReceived + 1;
        }
        return;
      }
      data, status := FillChunks(max);
    }

    /** The fill loop of Read, for a buffer of at least one chunk. */
    method FillChunks(max: nat) returns (data: Bytes, status: Status)
      requires reader.Valid() && 0 < chunkSize <= max
      modifies this`bytesReceived, this`chunksReceived, reader, reader.source
      ensures reader.Valid() && |data| <= max
      ensures old(reader.Pending()) == Input(data + reader.Pending().bytes, reader.Pending().ending)
      ensures !status.More? ==> status == reader.Pending().ending && reader.Pending().bytes == []
      ensures status.More? ==> |data| == max || (reader.Pending().bytes == [] && reader.Pending().ending.Done?)
      ensures old(reader.Alone()) ==> reader.Alone()
      ensures status.Done? ==> data == []
      ensures status.More? ==> reader.Measure() < old(reader.Measure())
      ensures bytesReceived == old(bytesReceived) + |data|
      ensures old(chunksReceived) <= chunksReceived <= old(chunksReceived) + Chunks(|data|, chunkSize)
      ensures |data| == max ==> old(chunksReceived) < chunksReceived
    {
      hide Chunks, BufReader.Pending, BufReader.Measure, BufReader.Alone, BufReader.Valid;
      data, status := [], More;
      WholeChunks(0, 0, chunkSize);
      while |data| < max
        invariant reader.Valid() && |data| <= max && status.More?
        invariant old(reader.Pending()) == Input(data + reader.Pending().bytes, reader.Pending().ending)
        invariant old(reader.Alone()) ==> reader.Alone()
        invariant bytesReceived == old(bytesReceived) + |data|
        invariant old(chunksReceived) <= chunksReceived <= old(chunksReceived) + Chunks(|data|, chunkSize)
        invariant if |data| == max then old(chunksReceived) < chunksReceived
                  else chunksReceived <= old(chunksReceived) + |data| / chunkSize
        invariant |data| == max ==> reader.Measure() < old(reader.Measure())
        invariant reader.Measure() + |data| <= old(reader.Measure())
        decreases reader.Measure()
      {
        var nr, er := reader.Read(max - |data|);
        Regroup(data, nr, reader.Pending().bytes);
        WholeChunks(|data|, |nr|, chunkSize);
        WholeChunks(|data| + |nr|, 0, chunkSize);
        data, bytesReceived := data + nr, bytesReceived + |nr|;
        if nr != [] && (|nr| == chunkSize || |data| == max) {
          chunksReceived := chunksReceived + 1;
        }
        if !er.More? {
          status := if er.Done? && data != [] then More else er;
          return;
        }
      }
    }

    /** Close flushes; a failure to do so is counted, not reported. */
    method Close()
      requires writer.Valid()
      modifies this, writer, writer.sink
      ensures writer.Valid() && writer.Total() == old(writer.Total())
      ensures writer.fault.None? ==> writer.sink.written == old(writer.Total())
      ensures errors == old(errors) + if writer.fault.Some? then 1 else 0
    {
      var error := writer.Flush();
      if error.Some? {
        errors := errors + 1;
      }
    }
  }

  // ----- the large-message strategy -----

  const DEFAULT_BUFFER := 4096
  const MIN_READ_BUFFER := 16

  /** bufio.NewReaderSize and bufio.NewWriterSize do not take every size. */
  function WriterSize(size: int): nat {
    if size > 0 then size else DEFAULT_BUFFER
  }

  /** NewLargeMessageConn over one end of a connection. */
  method NewConn(source: Source, sink: Sink, estimate: int, options: Options) returns (conn: LargeMessageConn)
    ensures fresh(conn) && fresh(conn.reader) && fresh(conn.writer)
    ensures conn.reader.source == source && conn.writer.sink == sink
    ensures conn.reader.Valid() && conn.writer.Valid()
    ensures conn.reader.size == Max(AdjustBufferSizes(options, estimate).readBufferSize, MIN_READ_BUFFER)
    ensures conn.chunkSize == AdjustBufferSizes(options, estimate).chunkSize
    ensures conn.reader.Pending() == source.Pending() && (EndsAlone(source.script) ==> conn.reader.Alone())
    ensures conn.writer.Total() == sink.written && (conn.writer.Healthy() <==> sink.quota.Unlimited?)
  {
    var o := AdjustBufferSizes(options, estimate);
    var reader := new BufReader(source, Max(o.readBufferSize, MIN_READ_BUFFER));
    var writer := new BufWriter(sink, WriterSize(o.writeBufferSize));
    conn := new LargeMessageConn(reader, writer, o.chunkSize);
  }

  /** Send puts a prefix of the data on the wire: all of it, if the connection takes it. */
  method Send(source: Source, sink: Sink, data: Bytes, options: Options) returns (error: Option<Error>)
    modifies sink
    ensures old(sink.written) <= sink.written <= old(sink.written) + data
    ensures error.None? ==> sink.written == old(sink.written) + data
    ensures old(sink.quota).Unlimited? ==> error.None?
  {
    var conn := NewConn(source, sink, |data|, options.(adaptiveChunking := true));
    var n;
    n, error := conn.Write(data);
    PrefixOfTotal(sink.written, conn.writer.buffered, old(sink.written), data, n);
  }

  lemma PrefixOfTotal(wire: Bytes, buffered: Bytes, before: Bytes, data: Bytes, n: nat)
    requires n <= |data|
    requires wire + buffered == before + data[..n]
    requires before <= wire
    ensures wire <= before + data
  {
    assert wire == (before + data[..n])[..|wire|] == (before + data)[..|wire|];
  }

  /** The least whole number of reads of c bytes that is more than 1 MiB, in bytes. */
  function Overrun(c: nat): nat
    requires c > 0
  {
    (LARGE_MESSAGE / c + 1) * c
  }

  /** Where some reads of c bytes stand to 1 MiB. */
  lemma WholeReads(taken: nat, c: nat)
    requires c > 0
    ensures taken * c <= LARGE_MESSAGE ==> (taken + 1) * c <= Overrun(c)
    ensures taken * c > LARGE_MESSAGE ==> Overrun(c) <= taken * c
  {
    var q := LARGE_MESSAGE / c;
    assert LARGE_MESSAGE == c * q + LARGE_MESSAGE % c;
    if q < taken {
      TimesLess(q, taken, c);
    } else if taken < q {
      TimesLess(taken, q, c);
    }
  }

  /**
   * Receive returns everything that was sent if that is at most 1 MiB, and ErrFrameTooBig if it is
   * more, however the connection cuts the bytes up and reports their end: its buffer is larger than
   * its chunks, so that no end comes together with data. A connection that breaks gives its error, or
   * ErrFrameTooBig if more than 1 MiB came before it; of large reads, a whole number of them. Only at
   * exactly that number of bytes it depends on whether the error came together with the last of them.
   */
  method Receive(source: Source, sink: Sink, options: Options) returns (r: Result<Bytes>)
    requires options.chunkSize > 0
    modifies source
    ensures var all := old(source.Pending());
            && (all.ending.Done? && |all.bytes| <= LARGE_MESSAGE ==> r == Ok(all.bytes))
            && (all.ending.Done? && |all.bytes| > LARGE_MESSAGE ==> r == Err(FrameTooBig))
            && (all.ending.Broken? && |all.bytes| <= LARGE_MESSAGE ==> r == Err(all.ending.error))
            && (all.ending.Broken? && |all.bytes| > LARGE_MESSAGE ==>
                  if options.chunkSize < LARGE_CHUNK || |all.bytes| > Overrun(options.chunkSize) then r == Err(FrameTooBig)
                  else if |all.bytes| < Overrun(options.chunkSize) then r == Err(all.ending.error)
                  else r in {Err(FrameTooBig), Err(all.ending.error)})
  {
    var conn := NewConn(source, sink, LARGE_MESSAGE, options.(adaptiveChunking := true));
    var buffer: Bytes := [];
    ghost var taken := 0;
    while true
      invariant conn.reader.Valid() && conn.chunkSize == LARGE_CHUNK <= conn.reader.size
      invariant old(source.Pending()) == Input(buffer + conn.reader.Pending().bytes, conn.reader.Pending().ending)
      invariant |buffer| <= LARGE_MESSAGE
      invariant fresh(conn) && fresh(conn.reader) && conn.reader.source == source
      invariant options.chunkSize >= LARGE_CHUNK && conn.reader.Pending().ending.Broken? ==>
                  |buffer| == taken * options.chunkSize
      decreases conn.reader.Measure()
    {
      var data, status := conn.Read(options.chunkSize);
      Regroup(buffer, data, conn.reader.Pending().bytes);
      WholeReads(taken, options.chunkSize);
      WholeReads(taken + 1, options.chunkSize);
      assert (taken + 1) * options.chunkSize == taken * options.chunkSize + options.chunkSize;
      buffer, taken := buffer + data, taken + 1;
      assert !status.More? ==> old(source.Pending()) == Input(buffer, status) by {
        assert buffer + [] == buffer;
      }
      match status {
        case Done => return Ok(buffer);
        case Broken(e) => return Err(e);
        case More =>
      }
      if |buffer| > LARGE_MESSAGE {
        return Err(FrameTooBig);
      }
    }
  }
}
