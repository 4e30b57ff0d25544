/**
 * The stream protocol on top of frames: which frames a reader's blocks become, what offering them
 * to a connection does, and what a receiver makes of the bytes it finds.
 */
module Streams {
  import opened ByteOrder
  import opened IO
  import opened Frames
  import opened Processors
  import opened Sizes

  function ChunkSizeFor(totalSize: int): (chunk: nat)
    ensures 0 < chunk <= LARGE_CHUNK
  {
    if totalSize < MEDIUM_MESSAGE then SMALL_CHUNK
    else if totalSize < LARGE_MESSAGE then MEDIUM_CHUNK
    else LARGE_CHUNK
  }

  function StreamFlags(first: bool, last: bool): U32 {
    (if first then Fragmented.Bit() else 0) + (if last then LastFrame.Bit() else 0)
  }

  method ChunkFlags(first: bool, last: bool) returns (flags: U32)
    ensures flags == StreamFlags(first, last)
  {
    flags := 0;
    if first {
      flags := Fragmented.On(flags);
    }
    if last {
      flags := LastFrame.On(flags);
    }
  }

  lemma StreamFlagsMeaning(first: bool, last: bool)
    ensures Fragmented.In(StreamFlags(first, last)) == first
    ensures LastFrame.In(StreamFlags(first, last)) == last
    ensures !Compressed.In(StreamFlags(first, last))
  {
  }

  // ----- sending -----

  /** The frames that SendStream makes of a reader's blocks; `first` until one of them held data. */
  function Plan(script: seq<Block>, chunk: nat, first: bool): seq<Frame>
    requires chunk > 0
    decreases Weight(script)
  {
    ReadStepDelivers(script, chunk);
    var r := ReadStep(script, chunk);
    if r.block == [] then
      match r.status
      case More => Plan(r.rest, chunk, first)
      case Done => [Frame([], LastFrame.Bit())]
      case Broken(_) => []
    else
      var frame := Frame(r.block, StreamFlags(first, r.status.Done?));
      [frame] + (if r.status.More? then Plan(r.rest, chunk, false) else [])
  }

  /** Offers frames to a sink one by one, up to the first that fails. */
  function Emit(processor: Processor, frames: seq<Frame>, quota: Quota): Written {
    if frames == [] then Written([], quota, None)
    else
      var w := processor.Offer(frames[0].data, frames[0].flags, quota);
      if w.error.Some? then w
      else
        var later := Emit(processor, frames[1..], w.quota);
        Written(w.bytes + later.bytes, later.quota, later.error)
  }

  /** How many bytes of data got through in frames that were written whole. */
  function Through(processor: Processor, frames: seq<Frame>, quota: Quota): nat {
    if frames == [] then 0
    else
      var w := processor.Offer(frames[0].data, frames[0].flags, quota);
      if w.error.Some? then 0 else |frames[0].data| + Through(processor, frames[1..], w.quota)
  }

  /** What was offered after some earlier bytes. */
  function Behind(earlier: Bytes, w: Written): Written {
    w.(bytes := earlier + w.bytes)
  }

  lemma BehindTwice(a: Bytes, b: Bytes, w: Written)
    ensures Behind(a, Behind(b, w)) == Behind(a + b, w)
  {
    assert a + (b + w.bytes) == a + b + w.bytes;
  }

  lemma BehindNothing(a: Bytes, quota: Quota)
    ensures Behind(a, Written([], quota, None)) == Written(a, quota, None)
  {
  }

  /** What one read makes the sender write. */
  function OfferBlock(processor: Processor, block: Bytes, status: Status, first: bool, quota: Quota): Written {
    if block != [] then processor.Offer(block, StreamFlags(first, status.Done?), quota)
    else if status.Done? then processor.Offer([], LastFrame.Bit(), quota)
    else Written([], quota, None)
  }

  lemma EmitCons(processor: Processor, frame: Frame, rest: seq<Frame>, quota: Quota)
    ensures var w := processor.Offer(frame.data, frame.flags, quota);
            && Emit(processor, [frame] + rest, quota) ==
               (if w.error.None? then Behind(w.bytes, Emit(processor, rest, w.quota)) else w)
            && Through(processor, [frame] + rest, quota) ==
               (if w.error.None? then |frame.data| + Through(processor, rest, w.quota) else 0)
  {
    hide Processor.Offer;
    assert ([frame] + rest)[1..] == rest;
  }

  lemma EmitNone(processor: Processor, quota: Quota)
    ensures Emit(processor, [], quota) == Written([], quota, None) && Through(processor, [], quota) == 0
  {
  }

  /** Emit, seen one read of the sender's loop at a time. */
  lemma EmitPlan(processor: Processor, script: seq<Block>, chunk: nat, first: bool, quota: Quota)
    requires chunk > 0
    ensures var r := ReadStep(script, chunk);
            var w := OfferBlock(processor, r.block, r.status, first, quota);
            var next := first && r.block == [];
            && Emit(processor, Plan(script, chunk, first), quota) ==
               (if w.error.None? && r.status.More? then Behind(w.bytes, Emit(processor, Plan(r.rest, chunk, next), w.quota))
                else w)
            && Through(processor, Plan(script, chunk, first), quota) ==
               (if w.error.Some? then 0
                else |r.block| + if r.status.More? then Through(processor, Plan(r.rest, chunk, next), w.quota) else 0)
  {
    hide Processor.Offer, ReadStep, Emit, Through;
    ReadStepDelivers(script, chunk);
    var r := ReadStep(script, chunk);
    var w := OfferBlock(processor, r.block, r.status, first, quota);
    var frame := Frame(r.block, if r.block != [] then StreamFlags(first, r.status.Done?) else LastFrame.Bit());
    EmitNone(processor, quota);
    EmitNone(processor, w.quota);
    BehindNothing(w.bytes, w.quota);
    if r.block != [] {
      EmitCons(processor, frame, if r.status.More? then Plan(r.rest, chunk, false) else [], quota);
    } else if r.status.Done? {
      assert [frame] + [] == [frame];
      EmitCons(processor, frame, [], quota);
    }
  }

  /** How sending a whole script ends: by the sink's error, else by the reader's. */
  function SendError(sent: Written, ending: Ending): Option<Error> {
    match sent.error
    case Some(e) => Some(e)
    case None => if ending.Broken? then Some(ending.error) else None
  }

  // ----- receiving -----

  datatype Received = Received(written: Bytes, quota: Quota, error: Option<Error>, rest: Input)

  /** `more` if the stream goes on after this frame. */
  datatype FrameStep = FrameStep(received: Received, more: bool)

  /** What a receiver makes of one frame; `started` once a frame that opens a stream was seen. */
  function ReceiveFrame(processor: Processor, input: Input, started: bool, quota: Quota): FrameStep {
    var p := processor.Read(input);
    if p.result.Err? then FrameStep(Received([], quota, Some(p.result.error), p.rest), false)
    else
      var frame := p.result.value;
      if !started && !Fragmented.In(frame.flags) then
        FrameStep(Received([], quota, Some(ProtocolViolation), p.rest), false)
      else if !quota.Admits(|frame.data|) then
        FrameStep(Received(quota.Accepted(frame.data), quota.After(frame.data), Some(SinkFault), p.rest), false)
      else
        FrameStep(Received(frame.data, quota.After(frame.data), None, p.rest), !LastFrame.In(frame.flags))
  }

  lemma ReceiveFrameShrinks(processor: Processor, input: Input, started: bool, quota: Quota)
    ensures var s := ReceiveFrame(processor, input, started, quota);
            s.more ==> |s.received.rest.bytes| < |input.bytes| && s.received.error.None?
  {
    hide Processor.Read, Flag.In;
    Shrinks(processor, input);
  }

  /** What ReceiveStream writes. */
  function Receive(processor: Processor, input: Input, started: bool, quota: Quota): Received
    decreases |input.bytes|
  {
    hide ReceiveFrame;
    ReceiveFrameShrinks(processor, input, started, quota);
    var s := ReceiveFrame(processor, input, started, quota);
    if !s.more then s.received
    else Following(s.received.written, Receive(processor, s.received.rest, true, s.received.quota))
  }

  /** What was received after some earlier bytes. */
  function Following(earlier: Bytes, r: Received): Received {
    r.(written := earlier + r.written)
  }

  lemma FollowingNothing(r: Received)
    ensures Following([], r) == r
  {
  }

  /** Receive, seen one frame of the receiver's loop at a time. */
  lemma ReceiveLoop(processor: Processor, input: Input, started: bool, quota: Quota, got: Bytes)
    ensures var s := ReceiveFrame(processor, input, started, quota);
            Following(got, Receive(processor, input, started, quota)) ==
            if s.more then
              Following(got + s.received.written, Receive(processor, s.received.rest, true, s.received.quota))
            else s.received.(written := got + s.received.written)
  {
    hide ReceiveFrame;
    var s := ReceiveFrame(processor, input, started, quota);
    if s.more {
      Regroup(got, s.received.written, Receive(processor, s.received.rest, true, s.received.quota).written);
    }
  }
}
