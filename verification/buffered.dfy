/** Buffered readers and writers (Go's bufio), as the large-message connection and the message codec use them. */
module Buffered {
  import opened ByteOrder
  import opened IO

  lemma Grow(start: Bytes, p: Bytes, n: nat, m: nat)
    requires n + m <= |p|
    ensures start + p[..n] + p[n..n + m] == start + p[..n + m]
  {
    assert p[..n] + p[n..n + m] == p[..n + m];
  }

  /** bufio.Writer: a full buffer is flushed, large writes bypass it, and an error stays. */
  class BufWriter {
    const sink: Sink
    const size: nat
    var buffered: Bytes
    var fault: Option<Error>

    constructor (sink: Sink, size: nat)
      requires size > 0
      ensures Valid() && this.sink == sink && this.size == size && buffered == [] && fault == None
    {
      this.sink, this.size, buffered, fault := sink, size, [], None;
    }

    ghost predicate Valid()
      reads this
    {
      size > 0 && |buffered| <= size
    }

    /** The bytes that were handed to this writer and not lost: on the wire or still in the buffer. */
    ghost function Total(): Bytes
      reads this, sink
    {
      sink.written + buffered
    }

    ghost predicate Healthy()
      reads this, sink
    {
      fault.None? && sink.quota.Unlimited?
    }

    method Flush() returns (error: Option<Error>)
      requires Valid()
      modifies this, sink
      ensures Valid() && Total() == old(Total())
      ensures error == fault && (error.None? ==> buffered == [])
      ensures old(fault).Some? ==> fault == old(fault)
      ensures old(Healthy()) ==> Healthy()
      ensures old(sink.written) <= sink.written
    {
      if fault.Some? || buffered == [] {
        return fault;
      }
      var n, problem := sink.Write(buffered);
      buffered := buffered[n..];
      fault := problem;
      return fault;
    }

    /** Whatever happens, exactly the first n bytes of p were added to what the writer has taken. */
    method Write(p: Bytes) returns (n: nat, error: Option<Error>)
      requires Valid()
      modifies this, sink
      ensures Valid()
      ensures n <= |p| && Total() == old(Total()) + p[..n]
      ensures error == fault && (error.None? ==> n == |p|)
      ensures old(fault).Some? ==> fault == old(fault)
      ensures old(Healthy()) ==> Healthy()
      ensures old(sink.written) <= sink.written
    {
      n := 0;
      while |p| - n > size - |buffered| && fault.None?
        invariant Valid() && n <= |p|
        invariant Total() == old(Total()) + p[..n]
        invariant old(fault).Some? ==> fault == old(fault)
        invariant old(Healthy()) ==> Healthy()
        invariant old(sink.written) <= sink.written
        decreases fault.None?, |p| - n, |buffered|
      {
        ghost var start := old(Total());
        if buffered == [] {
          ghost var before := sink.written;
          assert before == Total();
          var m;
          m, fault := sink.Write(p[n..]);
          assert sink.written == before + p[n..n + m] == Total();
          Grow(start, p, n, m);
          n := n + m;
        } else {
          var m := size - |buffered|;
          Regroup(sink.written, buffered, p[n..n + m]);
          buffered := buffered + p[n..n + m];
          Grow(start, p, n, m);
          n := n + m;
          var _ := Flush();
        }
      }
      if fault.Some? {
        return n, fault;
      }
      Regroup(sink.written, buffered, p[n..]);
      Grow(old(Total()), p, n, |p| - n);
      assert p[n..n + (|p| - n)] == p[n..];
      buffered := buffered + p[n..];
      return |p|, None;
    }
  }

  /** bufio.Reader: at most one read of the source per call, and an error is reported once. */
  class BufReader {
    const source: Source
    const size: nat
    var buffered: Bytes
    var held: Status

    constructor (source: Source, size: nat)
      requires size > 0
      ensures Valid() && this.source == source && this.size == size
      ensures Pending() == source.Pending() && (EndsAlone(source.script) ==> Alone())
    {
      this.source, this.size, buffered, held := source, size, [], More;
      new;
      assert [] + Content(source.script) == Content(source.script);
    }

    ghost predicate Valid()
      reads this, source
    {
      && size > 0
      && |buffered| <= size
      && (!held.More? ==> Content(source.script) == [] && EndOf(source.script) == held)
    }

    /** The bytes that are still to be delivered, and how they end. */
    ghost function Pending(): Input
      reads this, source
    {
      Input(buffered + Content(source.script), EndOf(source.script))
    }

    /** A bound on the calls that deliver something. */
    ghost function Measure(): nat
      reads this, source
    {
      Weight(source.script) + |buffered|
    }

    /** The source reports its end by itself. */
    ghost predicate Alone()
      reads this, source
    {
      EndsAlone(source.script)
    }

    /** Each call delivers the next of the pending bytes; an end is reported only behind the last. */
    method Read(max: nat) returns (block: Bytes, status: Status)
      requires Valid()
      modifies this, source
      ensures Valid() && |block| <= max
      ensures old(Pending()) == Input(block + Pending().bytes, Pending().ending)
      ensures !status.More? ==> status == Pending().ending && Pending().bytes == []
      ensures old(Alone()) ==> Alone() && (!status.More? ==> block == [])
      ensures max < size && !status.More? ==> block == []
      ensures Measure() + |block| <= old(Measure())
      ensures status.More? && max > 0 ==> Measure() < old(Measure())
    {
      if max == 0 {
        if buffered == [] {
          status, held := held, More;
          return [], status;
        }
        return [], More;
      }
      if buffered == [] {
        if held.More? && max >= size {
          ReadStepDelivers(source.script, max);
          block, status := source.Read(max);
          return;
        }
        status := Fill();
        if buffered == [] {
          return [], status;
        }
      }
      var n := if max < |buffered| then max else |buffered|;
      Regroup(buffered[..n], buffered[n..], Content(source.script));
      assert buffered == buffered[..n] + buffered[n..];
      block, buffered := buffered[..n], buffered[n..];
      return block, More;
    }

    /** One read of the source into the empty buffer. */
    method Fill() returns (status: Status)
      requires Valid() && buffered == []
      modifies this, source
      ensures Valid() && Pending() == old(Pending())
      ensures !status.More? ==> status == Pending().ending && Pending().bytes == []
      ensures buffered != [] ==> status.More?
      ensures old(Alone()) ==> Alone()
      ensures Measure() <= old(Measure())
      ensures buffered == [] && status.More? ==> Measure() < old(Measure())
    {
      if held.More? {
        ReadStepDelivers(source.script, size);
        buffered, held := source.Read(size);
        if buffered != [] {
          return More;
        }
      }
      status, held := held, More;
    }

    /** io.ReadFull through the buffer. */
    method ReadFull(n: nat) returns (r: Result<Bytes>)
      requires Valid()
      modifies this, source
      ensures Valid()
      ensures Take(old(Pending()), n) == Taken(r, Pending())
    {
      var whole: Bytes := [];
      var status := More;
      while |whole| < n && status.More?
        invariant Valid() && |whole| <= n
        invariant old(Pending()) == Input(whole + Pending().bytes, Pending().ending)
        invariant !status.More? ==> status == Pending().ending && Pending().bytes == []
        decreases status.More?, Measure()
      {
        ghost var later := Pending().bytes;
        var block;
        block, status := Read(n - |whole|);
        Regroup(whole, block, Pending().bytes);
        assert later == block + Pending().bytes;
        whole := whole + block;
      }
      TakePrefix(whole, Pending().bytes, Pending().ending);
      r := if |whole| >= n then Ok(whole) else Err(ShortRead(|whole|, status));
    }
  }
}
