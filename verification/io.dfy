/**
 * Readers and writers as the transport sees them: a source that hands out bytes in blocks of its
 * own choosing and then ends or breaks, and a sink that takes bytes until it breaks.
 */
module IO {
  import opened ByteOrder

  datatype Option<+T> = None | Some(value: T)

  datatype Error =
    | EndOfFile
    | UnexpectedEnd
    | ConnectionFault(code: int)
    | SinkFault
    | HeaderSizeInvalid
    | HeaderFormatInvalid
    | ChecksumMismatch
    | FrameTooBig
    | ProtocolViolation
    | LengthMismatch
    | DecompressionFault
    | NoMessage
    | RoutingKeyTooLong
    | BodyTooLarge
    | HeaderMissing
    | HeaderChecksumMismatch
    | RoutingKeyMissing
    | BodyMissing
    | BodyChecksumMismatch
    | VersionInvalid
    | BodyLengthWrong
    | RoutingKeyLengthWrong
    | MessageExpired

  datatype Result<+T> = Ok(value: T) | Err(error: Error)
  {
    predicate IsFailure() {
      Err?
    }

    function PropagateFailure<U>(): Result<U>
      requires Err?
    {
      Err(error)
    }

    function Extract(): T
      requires Ok?
    {
      value
    }
  }

  // ----- sources -----

  /** What a read reports beside its bytes: a nil error, io.EOF, or another error. */
  datatype Status = More | Done | Broken(error: Error)

  /** How a source ends once its bytes are used up. */
  type Ending = s: Status | !s.More? witness Done

  /** One block a source is going to deliver, and what it reports with the block's last byte. */
  datatype Block = Block(data: Bytes, status: Status)

  /** All bytes a script delivers: everything up to its first step that ends it. */
  function Content(script: seq<Block>): Bytes {
    if script == [] then []
    else if script[0].status.More? then script[0].data + Content(script[1..])
    else script[0].data
  }

  function EndOf(script: seq<Block>): Ending {
    if script == [] then Done
    else if script[0].status.More? then EndOf(script[1..])
    else script[0].status
  }

  /** The last byte and the end of the input are reported by separate reads. */
  predicate EndsAlone(script: seq<Block>) {
    if script == [] then true
    else if script[0].status.More? then EndsAlone(script[1..])
    else script[0].data == []
  }

  /** A bound on the reads a script can serve without ending. */
  function Weight(script: seq<Block>): nat {
    if script == [] then 0 else 1 + |script[0].data| + Weight(script[1..])
  }

  datatype Delivery = Delivery(block: Bytes, status: Status, rest: seq<Block>)

  /**
   * One read into a buffer of the given length. A block that does not fit is split; an end is
   * reported again by every later read.
   */
  function ReadStep(script: seq<Block>, max: nat): (r: Delivery)
    ensures |r.block| <= max
  {
    if script == [] then Delivery([], Done, [])
    else
      var head := script[0];
      if |head.data| > max then
        Delivery(head.data[..max], More, [Block(head.data[max..], head.status)] + script[1..])
      else if head.status.More? then Delivery(head.data, More, script[1..])
      else Delivery(head.data, head.status, [Block([], head.status)])
  }

  /** A read delivers the next bytes, loses none, and reports the end only after the last one. */
  lemma ReadStepDelivers(script: seq<Block>, max: nat)
    ensures var r := ReadStep(script, max);
            && Content(script) == r.block + Content(r.rest)
            && EndOf(r.rest) == EndOf(script)
            && (EndsAlone(script) ==> EndsAlone(r.rest))
            && (!r.status.More? ==> r.status == EndOf(script) && Content(r.rest) == [])
            && (!r.status.More? && EndsAlone(script) ==> r.block == [])
            && Weight(r.rest) + |r.block| <= Weight(script)
            && (r.status.More? && max > 0 ==> Weight(r.rest) < Weight(script))
  {
    if script != [] && |script[0].data| > max {
      var r := ReadStep(script, max);
      assert r.rest[1..] == script[1..];
      assert script[0].data == script[0].data[..max] + script[0].data[max..];
      if script[0].status.More? {
        assert Content(script) == r.block + (script[0].data[max..] + Content(script[1..]));
      }
    }
  }

  /** What one read adds to a buffer, the source no longer holds. */
  lemma ReadStepAppends(buffer: Bytes, script: seq<Block>, max: nat)
    ensures var r := ReadStep(script, max);
            && buffer + r.block + Content(r.rest) == buffer + Content(script)
            && EndOf(r.rest) == EndOf(script)
            && (!r.status.More? ==> r.status == EndOf(script) && Content(r.rest) == [])
            && (r.status.More? && max > 0 ==> Weight(r.rest) < Weight(script))
  {
    hide ReadStep;
    hide Content;
    ReadStepDelivers(script, max);
    var r := ReadStep(script, max);
    assert buffer + r.block + Content(r.rest) == buffer + (r.block + Content(r.rest));
  }

  /** The bytes a source still holds and how it ends: all that a reader of whole fields can see. */
  datatype Input = Input(bytes: Bytes, ending: Ending)

  datatype Taken = Taken(result: Result<Bytes>, rest: Input)

  /** io.ReadFull for a field of n bytes. */
  function Take(input: Input, n: nat): Taken {
    if n <= |input.bytes| then Taken(Ok(input.bytes[..n]), input.(bytes := input.bytes[n..]))
    else Taken(Err(ShortRead(|input.bytes|, input.ending)), input.(bytes := []))
  }

  /** The error of io.ReadFull after `got` of the wanted bytes. */
  function ShortRead(got: nat, ending: Ending): Error {
    match ending
    case Done => if got == 0 then EndOfFile else UnexpectedEnd
    case Broken(error) => error
  }

  lemma TakePrefix(field: Bytes, rest: Bytes, ending: Ending)
    ensures Take(Input(field + rest, ending), |field|) == Taken(Ok(field), Input(rest, ending))
  {
    assert (field + rest)[..|field|] == field && (field + rest)[|field|..] == rest;
  }

  class Source {
    var script: seq<Block>

    constructor (script: seq<Block>)
      ensures this.script == script
    {
      this.script := script;
    }

    ghost function Pending(): Input
      reads this
    {
      Input(Content(script), EndOf(script))
    }

    /** io.Reader.Read */
    method Read(max: nat) returns (block: Bytes, status: Status)
      modifies this
      ensures ReadStep(old(script), max) == Delivery(block, status, script)
    {
      var r := ReadStep(script, max);
      script := r.rest;
      return r.block, r.status;
    }

    /** io.ReadFull: however the bytes are cut into blocks, the field is complete or refused. */
    method ReadFull(n: nat) returns (r: Result<Bytes>)
      modifies this
      ensures Take(old(Pending()), n) == Taken(r, Pending())
    {
      var buffer: Bytes := [];
      var status := More;
      while |buffer| < n && status.More?
        invariant |buffer| <= n
        invariant buffer + Content(script) == old(Content(script))
        invariant EndOf(script) == old(EndOf(script))
        invariant !status.More? ==> status == EndOf(script) && Content(script) == []
        decreases status.More?, Weight(script)
      {
        ReadStepAppends(buffer, script, n - |buffer|);
        var block;
        block, status := Read(n - |buffer|);
        buffer := buffer + block;
      }
      TakePrefix(buffer, Content(script), EndOf(script));
      r := if |buffer| >= n then Ok(buffer) else Err(ShortRead(|buffer|, status));
    }
  }

  // ----- sinks -----

  /** How many more bytes a sink takes before it breaks. */
  datatype Quota = Unlimited | Limited(left: nat)
  {
    predicate Admits(n: nat) {
      Unlimited? || n <= left
    }

    /** The part of p that gets through. */
    function Accepted(p: Bytes): Bytes {
      if Admits(|p|) then p else p[..left]
    }

    function After(p: Bytes): Quota {
      match this
      case Unlimited => Unlimited
      case Limited(k) => if |p| <= k then Limited(k - |p|) else Limited(0)
    }
  }

  /** Two writes, the second only if the first was complete, get through exactly as one write of both. */
  lemma WriteInParts(quota: Quota, p: Bytes, q: Bytes)
    ensures if quota.Admits(|p|) then
              && quota.Accepted(p + q) == p + quota.After(p).Accepted(q)
              && quota.After(p + q) == quota.After(p).After(q)
              && quota.Admits(|p + q|) == quota.After(p).Admits(|q|)
            else
              && quota.Accepted(p + q) == quota.Accepted(p)
              && quota.After(p + q) == quota.After(p)
              && !quota.Admits(|p + q|)
  {
  }

  class Sink {
    var written: Bytes
    var quota: Quota

    constructor (quota: Quota)
      ensures written == [] && this.quota == quota
    {
      written, this.quota := [], quota;
    }

    /** io.Writer.Write: a short write reports an error. */
    method Write(p: Bytes) returns (n: nat, error: Option<Error>)
      modifies this
      ensures written == old(written) + old(quota).Accepted(p) && quota == old(quota).After(p)
      ensures n == |old(quota).Accepted(p)|
      ensures error == if old(quota).Admits(|p|) then None else Some(SinkFault)
    {
      var through := quota.Accepted(p);
      error := if quota.Admits(|p|) then None else Some(SinkFault);
      written, quota := written + through, quota.After(p);
      n := |through|;
    }
  }
}
