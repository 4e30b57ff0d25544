/** The message transporter: frames and streams over one connection, with optional progress tracking. */
module Transport {
  import opened ByteOrder
  import opened IO
  import opened Frames
  import opened Processors
  import opened Sizes
  import opened Streams
  import opened StreamTheory
  import opened Tracking

  /** What the error handler advises; its decision is a parameter of the transporter. */
  datatype Strategy = Retry | Ignore | Abort

  datatype Outcome = Success | Failing(error: Error) | Retryable(error: Error)

  /**
   * What a caller is told of an error: nothing if there is none or it is to be ignored; else exactly
   * that error, marked for a retry if and only if that is advised.
   */
  ghost predicate Tells(outcome: Outcome, error: Option<Error>, advice: Error -> Strategy) {
    && (outcome == Success <==> error.None? || advice(error.value) == Ignore)
    && (forall e :: outcome == Retryable(e) <==> error == Some(e) && advice(e) == Retry)
    && (forall e :: outcome == Failing(e) <==> error == Some(e) && advice(e) == Abort)
  }

  /** The error handler swallows no error. */
  ghost predicate NeverIgnores(advice: Error -> Strategy) {
    forall e :: advice(e) != Ignore
  }

  /** What a tracked transfer has come to after `moved` bytes. */
  predicate InFlight(r: Record, moved: nat) {
    if moved == 0 then r.status.Initializing? else r.status.Transferring? || r.status.Completed?
  }

  /** A transfer of known size is reported complete exactly when that many bytes have moved. */
  predicate OnSchedule(r: Record, total: int, moved: nat) {
    r.total == total && (r.status.Completed? <==> 0 < total <= moved)
  }

  class Transporter {
    const input: Source
    const output: Sink
    const processor: Processor
    const advice: Error -> Strategy
    const tracker: ProgressTracker?

    constructor (input: Source, output: Sink, processor: Processor, advice: Error -> Strategy,
                 tracker: ProgressTracker?)
      ensures this.input == input && this.output == output && this.processor == processor
      ensures this.advice == advice && this.tracker == tracker
    {
      this.input, this.output, this.processor := input, output, processor;
      this.advice, this.tracker := advice, tracker;
    }

    /** The records of all transfers: none without a tracker. */
    ghost function Records(): map<TransferId, Record>
      reads tracker
    {
      if tracker == null then map[] else tracker.transfers
    }

    ghost predicate Tracks(id: TransferId, moved: nat)
      reads tracker
    {
      tracker != null ==> id in tracker.transfers && InFlight(tracker.transfers[id], moved)
    }

    ghost predicate TracksSize(id: TransferId, total: int, moved: nat)
      reads tracker
    {
      tracker != null ==> id in tracker.transfers && OnSchedule(tracker.transfers[id], total, moved)
    }

    /** The tracker has this number of bytes on record. */
    ghost predicate Counts(id: TransferId, count: int)
      reads tracker
    {
      tracker != null ==> id in tracker.transfers && tracker.transfers[id].transferred == count
    }

    /** handleError: an error may be passed on, wrapped for a retry, or swallowed. */
    function HandleError(error: Option<Error>): (outcome: Outcome)
      ensures Tells(outcome, error, advice)
    {
      match error
      case None => Success
      case Some(e) =>
        match advice(e)
        case Retry => Retryable(e)
        case Ignore => Success
        case Abort => Failing(e)
    }

    // ----- the tracker calls of a transfer -----

    method Begin(id: TransferId, total: int)
      requires id !in Records()
      modifies tracker
      ensures Tracks(id, 0) && TracksSize(id, total, 0) && Counts(id, 0)
      ensures Records() - {id} == old(Records()) - {id}
    {
      if tracker != null {
        var now: int := *;
        var _ := tracker.StartTracking(id, total, now);
      }
    }

    /** A report completes the transfer if its size is reached, and changes nothing once it is completed. */
    method Report(id: TransferId, ghost before: nat, moved: nat)
      requires Tracks(id, before) && before < moved
      modifies tracker
      ensures Tracks(id, moved)
      ensures tracker != null ==>
                var r := old(tracker.transfers[id]);
                && tracker.transfers[id].total == r.total
                && (tracker.transfers[id].status.Completed? <==> r.status.Completed? || 0 < r.total <= moved)
                && Counts(id, if r.status.Completed? then r.transferred else moved)
      ensures Records() - {id} == old(Records()) - {id}
    {
      if tracker != null {
        var now: int := *;
        var _ := tracker.UpdateProgress(id, moved, now);
      }
    }

    method Complete(id: TransferId, ghost moved: nat)
      requires Tracks(id, moved)
      modifies tracker
      ensures Records() - {id} == old(Records()) - {id}
      ensures tracker != null ==> id in tracker.transfers
      ensures tracker != null && moved > 0 ==> tracker.transfers[id].status.Completed?
      ensures tracker != null && moved == 0 ==> tracker.transfers[id].status.Initializing?
      ensures tracker != null ==> Counts(id, old(tracker.transfers[id]).transferred)
    {
      if tracker != null {
        var now: int := *;
        var _ := tracker.UpdateStatus(id, Completed, now);
      }
    }

    method Failed(id: TransferId, cause: Error, ghost moved: nat)
      requires Tracks(id, moved)
      modifies tracker
      ensures Records() - {id} == old(Records()) - {id}
      ensures tracker != null ==> id in tracker.transfers
      ensures tracker != null ==>
                if old(tracker.transfers[id].status).Completed? then tracker.transfers[id] == old(tracker.transfers[id])
                else tracker.transfers[id].status.Failed? && tracker.transfers[id].error == Some(cause)
      ensures tracker != null ==> Counts(id, old(tracker.transfers[id]).transferred)
    {
      if tracker != null {
        var now: int := *;
        var _ := tracker.MarkFailed(id, cause, now);
      }
    }

    /** The deferred StopTracking. */
    method End(id: TransferId)
      requires tracker != null ==> id in tracker.transfers
      modifies tracker
      ensures Records() - {id} == old(Records()) - {id}
      ensures tracker != null ==> id in tracker.transfers && tracker.transfers[id].status.Terminal()
      ensures tracker != null ==>
                var before := old(tracker.transfers[id].status);
                tracker.transfers[id].status == if before.Completed? || before.Failed? then before else Cancelled
      ensures tracker != null ==> Counts(id, old(tracker.transfers[id]).transferred)
    {
      if tracker != null {
        var now: int := *;
        var _ := tracker.StopTracking(id, now);
      }
    }

    // ----- single messages -----

    /**
     * Send: one frame. Only messages over the threshold are tracked; such a transfer ends Completed
     * if the frame was written and Failed otherwise.
     */
    method Send(data: Bytes, id: TransferId) returns (outcome: Outcome)
      requires id !in Records()
      modifies output, processor.Footprint(), tracker
      ensures var w := processor.Offer(data, 0, old(output.quota));
              && output.written == old(output.written) + w.bytes && output.quota == w.quota
              && Tells(outcome, w.error, advice)
              && (tracker != null && |data| > LARGE_MESSAGE ==>
                    && id in tracker.transfers && Counts(id, if w.error.None? then |data| else 0)
                    && tracker.transfers[id].status == if w.error.None? then TransferStatus.Completed else TransferStatus.Failed)
      ensures Records() - {id} == old(Records()) - {id}
      ensures |data| <= LARGE_MESSAGE ==> Records() == old(Records())
    {
      var tracked := |data| > LARGE_MESSAGE;
      if tracked {
        Begin(id, |data|);
      }
      var error := processor.WriteFrame(output, data, 0);
      if tracked {
        if error.Some? {
          Failed(id, error.value, 0);
        } else {
          Report(id, 0, |data|);
          Complete(id, |data|);
        }
        End(id);
      }
      outcome := HandleError(error);
    }

    /** Receive: one frame. A message over the threshold is tracked, and Completed before the call returns. */
    method Receive(id: TransferId) returns (data: Bytes, outcome: Outcome)
      requires id !in Records()
      modifies input, processor.Footprint(), tracker
      ensures var p := processor.Read(old(input.Pending()));
              && input.Pending() == p.rest
              && (p.result.Ok? ==> data == p.result.value.data && outcome == Success)
              && (p.result.Err? ==> data == [] && Tells(outcome, Some(p.result.error), advice))
              && (id in Records() <==> tracker != null && p.result.Ok? && |p.result.value.data| > LARGE_MESSAGE)
      ensures id in Records() ==> Records()[id].status.Completed? && Counts(id, |data|)
      ensures Records() - {id} == old(Records()) - {id}
    {
      var r := processor.ReadFrame(input);
      if r.Err? {
        return [], HandleError(Some(r.error));
      }
      if |r.value| > LARGE_MESSAGE {
        Begin(id, |r.value|);
        Report(id, 0, |r.value|);
        Complete(id, |r.value|);
        End(id);
      }
      return r.value, Success;
    }

    // ----- streams -----

    /**
     * SendStream: whatever blocks the reader delivers, the connection gets the planned frames. With
     * tracking, the transfer ends Completed when data was sent to the end, and after a failure
     * exactly when the announced size had been reached; a stream without data ends Cancelled. If no
     * error is ignored, success means that all frames are on the connection and the reader ended.
     */
    method SendStream(reader: Source, totalSize: int, id: TransferId) returns (outcome: Outcome)
      requires id !in Records()
      modifies reader, output, processor.Footprint(), tracker
      ensures var frames := Plan(old(reader.script), ChunkSizeFor(totalSize), true);
              var sent := Emit(processor, frames, old(output.quota));
              var error := SendError(sent, EndOf(old(reader.script)));
              && output.written == old(output.written) + sent.bytes && output.quota == sent.quota
              && Tells(outcome, error, advice)
              && (tracker != null ==>
                    id in tracker.transfers
                    && tracker.transfers[id].status ==
                       SendVerdict(error, Through(processor, frames, old(output.quota)), totalSize))
              && Counts(id, Tally(processor, frames, old(output.quota), totalSize, 0))
      ensures var frames := Plan(old(reader.script), ChunkSizeFor(totalSize), true);
              NeverIgnores(advice) && SendsAll(processor, frames) ==>
                (outcome == Success <==>
                 output.written == old(output.written) + AllBits(processor, frames) && EndOf(old(reader.script)).Done?)
      ensures Records() - {id} == old(Records()) - {id}
    {
      hide Emit, Plan, Through, Tally, AllBits, SendsAll;
      ghost var frames := Plan(reader.script, ChunkSizeFor(totalSize), true);
      if SendsAll(processor, frames) {
        EmitPrefix(processor, frames, output.quota);
      }
      Begin(id, totalSize);
      var error := SendBlocks(reader, ChunkSizeFor(totalSize), totalSize, id);
      End(id);
      outcome := HandleError(error);
    }

    /** The loop of SendStream. */
    method SendBlocks(reader: Source, chunkSize: nat, ghost totalSize: int, id: TransferId) returns (error: Option<Error>)
      requires chunkSize > 0
      requires Tracks(id, 0) && TracksSize(id, totalSize, 0) && Counts(id, 0)
      modifies reader, output, processor.Footprint(), tracker
      ensures var sent := Emit(processor, Plan(old(reader.script), chunkSize, true), old(output.quota));
              && output.written == old(output.written) + sent.bytes && output.quota == sent.quota
              && error == SendError(sent, EndOf(old(reader.script)))
      ensures Settled(id, error, Through(processor, Plan(old(reader.script), chunkSize, true), old(output.quota)), totalSize)
      ensures Counts(id, Tally(processor, Plan(old(reader.script), chunkSize, true), old(output.quota), totalSize, 0))
      ensures Records() - {id} == old(Records()) - {id}
    {
      hide Emit, Plan, Through, Tally, OfferBlock, ReadStep, Content, EndOf, Weight, InFlight, OnSchedule, Tracks, TracksSize,
           Counts, Settled;
      ghost var whole := Emit(processor, Plan(reader.script, chunkSize, true), output.quota);
      ghost var through := Through(processor, Plan(reader.script, chunkSize, true), output.quota);
      ghost var tally := Tally(processor, Plan(reader.script, chunkSize, true), output.quota, totalSize, 0);
      ghost var counted: nat := 0;
      ghost var gone: Bytes := [];
      var totalSent: nat := 0;
      var isFirstChunk := true;
      var over := false;
      error := None;
      while !over
        invariant !over ==>
          whole == Behind(gone, Emit(processor, Plan(reader.script, chunkSize, isFirstChunk), output.quota))
        invariant over ==> whole.bytes == gone && whole.quota == output.quota && error == SendError(whole, EndOf(reader.script))
        invariant output.written == old(output.written) + gone
        invariant EndOf(reader.script) == old(EndOf(reader.script))
        invariant !over ==>
          through == totalSent + Through(processor, Plan(reader.script, chunkSize, isFirstChunk), output.quota)
        invariant Counts(id, counted) && (over ==> tally == counted)
        invariant !over ==>
          tally == if 0 < totalSize <= totalSent then counted
                   else Tally(processor, Plan(reader.script, chunkSize, isFirstChunk), output.quota, totalSize, totalSent)
        invariant 0 < totalSize <= totalSent || over || counted == totalSent
        invariant isFirstChunk == (totalSent == 0)
        invariant !over ==> Tracks(id, totalSent) && TracksSize(id, totalSize, totalSent)
        invariant over ==> Settled(id, error, through, totalSize)
        invariant Records() - {id} == old(Records()) - {id}
        decreases !over, Weight(reader.script)
      {
        EmitPlan(processor, reader.script, chunkSize, isFirstChunk, output.quota);
        TallyPlan(processor, reader.script, chunkSize, isFirstChunk, output.quota, totalSize, totalSent);
        ReadStepDelivers(reader.script, chunkSize);
        ghost var w := OfferBlock(processor, ReadStep(reader.script, chunkSize).block, ReadStep(reader.script, chunkSize).status,
                                  isFirstChunk, output.quota);
        var block, status := reader.Read(chunkSize);
        over, error := SendBlock(block, status, isFirstChunk, totalSent, totalSize, counted, id);
        ghost var first := isFirstChunk && block == [];
        BehindTwice(gone, w.bytes, Emit(processor, Plan(reader.script, chunkSize, first), output.quota));
        TallyStops(processor, Plan(reader.script, chunkSize, first), output.quota, totalSize, totalSent + |block|);
        counted := if w.error.None? && !(0 < totalSize <= totalSent) then totalSent + |block| else counted;
        totalSent := totalSent + |block|;
        isFirstChunk := isFirstChunk && block == [];
        gone := gone + w.bytes;
      }
    }

    /** The body of that loop, after a read. */
    method SendBlock(block: Bytes, status: Status, isFirstChunk: bool, totalSent: nat, ghost totalSize: int,
                     ghost counted: nat, id: TransferId)
      returns (over: bool, error: Option<Error>)
      requires Tracks(id, totalSent) && TracksSize(id, totalSize, totalSent)
      requires Counts(id, counted) && (0 < totalSize <= totalSent || counted == totalSent)
      modifies output, processor.Footprint(), tracker
      ensures var w := OfferBlock(processor, block, status, isFirstChunk, old(output.quota));
              && output.written == old(output.written) + w.bytes && output.quota == w.quota
              && over == (w.error.Some? || !status.More?)
              && (over ==> error == SendError(w, if status.More? then Done else status))
      ensures !over ==> Tracks(id, totalSent + |block|) && TracksSize(id, totalSize, totalSent + |block|)
      ensures over ==>
                var w := OfferBlock(processor, block, status, isFirstChunk, old(output.quota));
                Settled(id, error, if w.error.None? then totalSent + |block| else totalSent, totalSize)
      ensures var w := OfferBlock(processor, block, status, isFirstChunk, old(output.quota));
              Counts(id, if w.error.None? && !(0 < totalSize <= totalSent) then totalSent + |block| else counted)
      ensures Records() - {id} == old(Records()) - {id}
    {
      hide Processor.Offer, StreamFlags;
      error := None;
      if block != [] {
        var flags := ChunkFlags(isFirstChunk, status.Done?);
        error := processor.WriteFrame(output, block, flags);
        if error.Some? {
          Failed(id, error.value, totalSent);
          return true, error;
        }
        Report(id, totalSent, totalSent + |block|);
      }
      match status {
        case Done =>
          if block == [] {
            error := processor.WriteFrame(output, [], LastFrame.Bit());
            if error.Some? {
              Failed(id, error.value, totalSent);
              return true, error;
            }
          }
          Complete(id, totalSent + |block|);
          return true, None;
        case Broken(e) =>
          Failed(id, e, totalSent + |block|);
          return true, Some(e);
        case More =>
          return false, None;
      }
    }

    ghost predicate Settled(id: TransferId, error: Option<Error>, moved: nat, total: int)
      reads tracker
    {
      tracker != null ==> id in tracker.transfers && SendSettled(tracker.transfers[id], error, moved, total)
    }

    /**
     * ReceiveStream: the writer gets what the stream holds. With tracking, the transfer ends as the
     * verdict says. Its size is estimated at 1 MiB, and again whenever more was received: so a
     * receive that fails still ends Completed if the frames before came to exactly 1 MiB at some point.
     */
    method ReceiveStream(writer: Sink, id: TransferId) returns (outcome: Outcome)
      requires id !in Records()
      modifies input, writer, processor.Footprint(), tracker
      ensures var r := Streams.Receive(processor, old(input.Pending()), false, old(writer.quota));
              && writer.written == old(writer.written) + r.written && writer.quota == r.quota
              && input.Pending() == r.rest
              && Tells(outcome, r.error, advice)
              && (tracker != null ==>
                    id in tracker.transfers
                    && tracker.transfers[id].status == ReceiveVerdict(processor, old(input.Pending()), old(writer.quota)))
              && Counts(id, ReceiveTally(processor, old(input.Pending()), false, old(writer.quota), 0))
      ensures Records() - {id} == old(Records()) - {id}
    {
      hide Streams.Receive, Reaches, ReceiveTally, Unopened;
      Begin(id, LARGE_MESSAGE);
      var error := ReceiveFrames(writer, id);
      End(id);
      outcome := HandleError(error);
    }

    /** What is known of a receiver's transfer; `reached` if its bytes came to the first estimate exactly. */
    ghost predicate TracksEstimate(id: TransferId, moved: nat, reached: bool)
      reads tracker
    {
      && Tracks(id, moved)
      && (moved == LARGE_MESSAGE ==> reached)
      && Counts(id, if reached then LARGE_MESSAGE else moved)
      && (tracker != null ==>
            && (tracker.transfers[id].status.Completed? <==> reached)
            && (!reached && moved < LARGE_MESSAGE ==> tracker.transfers[id].total == LARGE_MESSAGE))
    }

    ghost predicate ReceiveSettled(id: TransferId, error: Option<Error>, moved: nat, unopened: bool, reached: bool)
      reads tracker
    {
      tracker != null ==>
        && id in tracker.transfers
        && var r := tracker.transfers[id];
           match error
           case None => if moved == 0 then r.status.Initializing? else r.status.Completed?
           case Some(e) =>
             if unopened then r.status.Initializing?
             else if reached then r.status.Completed?
             else r.status.Failed? && r.error == error
    }

    /** The loop of ReceiveStream. */
    method ReceiveFrames(writer: Sink, id: TransferId) returns (error: Option<Error>)
      requires TracksEstimate(id, 0, false)
      modifies input, writer, processor.Footprint(), tracker
      ensures var r := Streams.Receive(processor, old(input.Pending()), false, old(writer.quota));
              && writer.written == old(writer.written) + r.written && writer.quota == r.quota
              && input.Pending() == r.rest && error == r.error
              && ReceiveSettled(id, error, |r.written|, Unopened(processor, old(input.Pending())),
                                Reaches(processor, old(input.Pending()), false, old(writer.quota), 0))
              && Counts(id, ReceiveTally(processor, old(input.Pending()), false, old(writer.quota), 0))
      ensures Records() - {id} == old(Records()) - {id}
    {
      hide Streams.Receive, ReceiveFrame, TracksEstimate, ReceiveSettled, Following, Reaches, ReceiveTally, Unopened, Counts;
      ghost var start := input.Pending();
      ghost var whole := Streams.Receive(processor, start, false, writer.quota);
      ghost var reaches := Reaches(processor, start, false, writer.quota, 0);
      ghost var tally := ReceiveTally(processor, start, false, writer.quota, 0);
      ghost var reached := false;
      ghost var got: Bytes := [];
      var totalReceived: nat := 0;
      var started, over := false, false;
      error := None;
      FollowingNothing(whole);
      while !over
        invariant !over ==> whole == Following(got, Streams.Receive(processor, input.Pending(), started, writer.quota))
        invariant over ==> whole == Received(got, writer.quota, error, input.Pending())
        invariant writer.written == old(writer.written) + got
        invariant !over ==> totalReceived == |got| && TracksEstimate(id, totalReceived, reached)
        invariant if started then over || !Unopened(processor, start) else totalReceived == 0 && input.Pending() == start
        invariant !over ==>
          (reaches <==> reached || Reaches(processor, input.Pending(), started, writer.quota, totalReceived))
        invariant over ==> ReceiveSettled(id, error, |got|, Unopened(processor, start), reaches) && Counts(id, tally)
        invariant !over ==>
          tally == if reached then LARGE_MESSAGE
                   else ReceiveTally(processor, input.Pending(), started, writer.quota, totalReceived)
        invariant Records() - {id} == old(Records()) - {id}
        decreases !over, |input.Pending().bytes|
      {
        ghost var s := ReceiveFrame(processor, input.Pending(), started, writer.quota);
        ReceiveFrameShrinks(processor, input.Pending(), started, writer.quota);
        ReceiveLoop(processor, input.Pending(), started, writer.quota, got);
        ReachesLoop(processor, input.Pending(), started, writer.quota, totalReceived);
        ReceiveTallyLoop(processor, input.Pending(), started, writer.quota, totalReceived);
        Opened(processor, input.Pending(), writer.quota);
        Regroup(old(writer.written), got, s.received.written);
        over, error, totalReceived := TakeFrame(writer, started, totalReceived, id, reached);
        started := true;
        reached := reached || (!over && totalReceived == LARGE_MESSAGE);
        got := got + s.received.written;
      }
    }

    /** The body of that loop. */
    method TakeFrame(writer: Sink, started: bool, before: nat, id: TransferId, ghost reached: bool)
      returns (over: bool, error: Option<Error>, totalReceived: nat)
      requires TracksEstimate(id, before, reached)
      requires started || before == 0
      modifies input, writer, processor.Footprint(), tracker
      ensures var s := ReceiveFrame(processor, old(input.Pending()), started, old(writer.quota));
              && writer.written == old(writer.written) + s.received.written && writer.quota == s.received.quota
              && input.Pending() == s.received.rest && error == s.received.error && over == !s.more
              && (!over ==>
                    && totalReceived == before + |s.received.written|
                    && TracksEstimate(id, totalReceived, reached || totalReceived == LARGE_MESSAGE))
              && (over ==> ReceiveSettled(id, error, before + |s.received.written|,
                                          !started && Unopened(processor, old(input.Pending())), reached))
              && (over ==> Counts(id, if reached then LARGE_MESSAGE
                                      else if error.None? then before + |s.received.written| else before))
      ensures Records() - {id} == old(Records()) - {id}
    {
      hide Processor.Read, Flag.In;
      totalReceived := before;
      var frame := processor.ReadFrameWithFlags(input);
      if frame.Err? {
        Failed(id, frame.error, before);
        return true, Some(frame.error), before;
      }
      var data, flags := frame.value.data, frame.value.flags;
      var receivedStart := started || Fragmented.In(flags);
      var receivedLast := LastFrame.In(flags);
      if !receivedStart {
        return true, Some(ProtocolViolation), before;
      }
      if |data| > 0 {
        var n, fault := writer.Write(data);
        if fault.Some? {
          Failed(id, fault.value, before);
          return true, fault, before;
        }
        totalReceived := totalReceived + n;
        if totalReceived > LARGE_MESSAGE {
          Resize(id, before, totalReceived * 2);
        }
        Report(id, before, totalReceived);
      }
      if receivedLast {
        Complete(id, totalReceived);
      }
      return receivedLast, None, totalReceived;
    }

    /** A new estimate changes no status. */
    method Resize(id: TransferId, ghost moved: nat, total: int)
      requires Tracks(id, moved)
      modifies tracker
      ensures Tracks(id, moved)
      ensures tracker != null ==>
                && tracker.transfers[id].total == total && tracker.transfers[id].status == old(tracker.transfers[id].status)
                && Counts(id, old(tracker.transfers[id]).transferred)
      ensures Records() - {id} == old(Records()) - {id}
    {
      if tracker != null {
        var _ := tracker.UpdateTotalSize(id, total);
      }
    }
  }

  /** How a sender's transfer stands when its loop ends after `moved` bytes were sent. */
  predicate SendSettled(r: Record, error: Option<Error>, moved: nat, total: int) {
    match error
    case None => if moved == 0 then r.status.Initializing? else r.status.Completed?
    case Some(e) => if 0 < total <= moved then r.status.Completed? else r.status.Failed? && r.error == error
  }

  /** How it stands once tracking was stopped. */
  function SendVerdict(error: Option<Error>, moved: nat, total: int): TransferStatus {
    match error
    case None => if moved == 0 then TransferStatus.Cancelled else TransferStatus.Completed
    case Some(_) => if 0 < total <= moved then TransferStatus.Completed else TransferStatus.Failed
  }

  // ----- what a sender's tracker counts -----

  /**
   * The count that is left on record: the data of the frames written whole, up to the first at which the
   * announced size is reached, since the transfer is completed then and later reports are refused.
   */
  function Tally(processor: Processor, frames: seq<Frame>, quota: Quota, total: int, moved: nat): nat {
    if frames == [] || 0 < total <= moved then moved
    else
      var w := processor.Offer(frames[0].data, frames[0].flags, quota);
      if w.error.Some? then moved else Tally(processor, frames[1..], w.quota, total, moved + |frames[0].data|)
  }

  lemma TallyStops(processor: Processor, frames: seq<Frame>, quota: Quota, total: int, moved: nat)
    ensures frames == [] || 0 < total <= moved ==> Tally(processor, frames, quota, total, moved) == moved
  {
  }

  lemma TallyCons(processor: Processor, frame: Frame, rest: seq<Frame>, quota: Quota, total: int, moved: nat)
    requires !(0 < total <= moved)
    ensures var w := processor.Offer(frame.data, frame.flags, quota);
            Tally(processor, [frame] + rest, quota, total, moved) ==
            if w.error.Some? then moved else Tally(processor, rest, w.quota, total, moved + |frame.data|)
  {
    hide Processor.Offer;
    assert ([frame] + rest)[1..] == rest;
  }

  /** Tally, seen one read of the sender's loop at a time. */
  lemma TallyPlan(processor: Processor, script: seq<Block>, chunk: nat, first: bool, quota: Quota, total: int, moved: nat)
    requires chunk > 0
    ensures var r := ReadStep(script, chunk);
            var w := OfferBlock(processor, r.block, r.status, first, quota);
            Tally(processor, Plan(script, chunk, first), quota, total, moved) ==
            if 0 < total <= moved || w.error.Some? then moved
            else if r.status.More? then
              Tally(processor, Plan(r.rest, chunk, first && r.block == []), w.quota, total, moved + |r.block|)
            else moved + |r.block|
  {
    hide Processor.Offer, ReadStep, Tally;
    ReadStepDelivers(script, chunk);
    var r := ReadStep(script, chunk);
    var w := OfferBlock(processor, r.block, r.status, first, quota);
    var frame := Frame(r.block, if r.block != [] then StreamFlags(first, r.status.Done?) else LastFrame.Bit());
    TallyStops(processor, Plan(script, chunk, first), quota, total, moved);
    TallyStops(processor, [], w.quota, total, moved + |r.block|);
    if !(0 < total <= moved) {
      if r.block != [] {
        TallyCons(processor, frame, if r.status.More? then Plan(r.rest, chunk, false) else [], quota, total, moved);
      } else if r.status.Done? {
        assert [frame] + [] == [frame];
        TallyCons(processor, frame, [], quota, total, moved);
      }
    }
  }

  // ----- how a tracked receive ends -----

  /** The first frame can be read, but does not open a stream. */
  predicate Unopened(processor: Processor, input: Input) {
    var p := processor.Read(input);
    p.result.Ok? && !Fragmented.In(p.result.value.flags)
  }

  /** Behind some frame that is not the last to be read, the data comes to exactly 1 MiB. */
  predicate Reaches(processor: Processor, input: Input, started: bool, quota: Quota, before: nat)
    decreases |input.bytes|
  {
    hide ReceiveFrame;
    ReceiveFrameShrinks(processor, input, started, quota);
    var s := ReceiveFrame(processor, input, started, quota);
    s.more
    && var after := before + |s.received.written|;
       after == LARGE_MESSAGE || Reaches(processor, s.received.rest, true, s.received.quota, after)
  }

  lemma ReachesLoop(processor: Processor, input: Input, started: bool, quota: Quota, before: nat)
    ensures var s := ReceiveFrame(processor, input, started, quota);
            var after := before + |s.received.written|;
            Reaches(processor, input, started, quota, before) <==>
            s.more && (after == LARGE_MESSAGE || Reaches(processor, s.received.rest, true, s.received.quota, after))
  {
    hide ReceiveFrame;
  }

  /**
   * The count that is left on record of a receiver: the data of the frames written whole, unless that
   * comes to 1 MiB behind one of them before the last, since the transfer is completed then.
   */
  function ReceiveTally(processor: Processor, input: Input, started: bool, quota: Quota, before: nat): nat
    decreases |input.bytes|
  {
    hide ReceiveFrame;
    ReceiveFrameShrinks(processor, input, started, quota);
    var s := ReceiveFrame(processor, input, started, quota);
    var after := before + |s.received.written|;
    if s.received.error.Some? then before
    else if !s.more || after == LARGE_MESSAGE then after
    else ReceiveTally(processor, s.received.rest, true, s.received.quota, after)
  }

  lemma ReceiveTallyLoop(processor: Processor, input: Input, started: bool, quota: Quota, before: nat)
    ensures var s := ReceiveFrame(processor, input, started, quota);
            var after := before + |s.received.written|;
            ReceiveTally(processor, input, started, quota, before) ==
            if s.received.error.Some? then before
            else if !s.more || after == LARGE_MESSAGE then after
            else ReceiveTally(processor, s.received.rest, true, s.received.quota, after)
  {
    hide ReceiveFrame;
  }

  lemma Opened(processor: Processor, input: Input, quota: Quota)
    ensures ReceiveFrame(processor, input, false, quota).more ==> !Unopened(processor, input)
  {
    hide Processor.Read, Flag.In;
  }

  /**
   * How a receiver's transfer stands once tracking was stopped. A stream that was received to its end
   * is Completed if it held anything. One that failed is Cancelled if it was never opened, Completed
   * if its first estimate was reached exactly before the failure, and Failed otherwise.
   */
  function ReceiveVerdict(processor: Processor, input: Input, quota: Quota): TransferStatus {
    var r := Streams.Receive(processor, input, false, quota);
    match r.error
    case None => if r.written == [] then TransferStatus.Cancelled else TransferStatus.Completed
    case Some(_) =>
      if Unopened(processor, input) then TransferStatus.Cancelled
      else if Reaches(processor, input, false, quota, 0) then TransferStatus.Completed
      else TransferStatus.Failed
  }
}
