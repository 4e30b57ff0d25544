/** When a tracked receive that fails is reported as completed all the same. */
module TransportTheory {
  import opened ByteOrder
  import opened IO
  import opened Frames
  import opened Processors
  import opened Sizes
  import opened Streams
  import opened StreamRuns
  import opened StreamTheory
  import opened Tracking
  import opened Transport

  /** After some of the frames, the data comes to exactly 1 MiB. */
  predicate SumsUp(frames: seq<Frame>, before: nat) {
    && frames != []
    && var after := before + |frames[0].data|;
       after == LARGE_MESSAGE || SumsUp(frames[1..], after)
  }

  /**
   * What a receiver finds of a stream that breaks behind some frames, none of which closed it: it has
   * written their data, and passes on the error of the frame that could not be read.
   */
  lemma {:induction false} ReceiveFault(w: Processor, r: Processor, frames: seq<Frame>, started: bool, tail: Bytes,
                                        ending: Ending, before: nat)
    requires Understands(r, w) && Pass(w, r, frames) && NeverClosed(frames)
    requires started || frames == [] || Fragmented.In(frames[0].flags)
    requires r.Read(Input(tail, ending)).result.Err?
    ensures var input := Input(AllBits(w, frames) + tail, ending);
            && Streams.Receive(r, input, started, Unlimited) ==
               Received(Joined(frames), Unlimited, Some(r.Read(Input(tail, ending)).result.error),
                        r.Read(Input(tail, ending)).rest)
            && (Reaches(r, input, started, Unlimited, before) <==> SumsUp(frames, before))
    decreases |frames|
  {
    hide Processor.Read, Understands, Bits, AllBits, Flag.In, Reaches, Streams.Receive, ReceiveFrame, Pass, NeverClosed;
    var input := Input(AllBits(w, frames) + tail, ending);
    ReachesLoop(r, input, started, Unlimited, before);
    ReceiveLoop(r, input, started, Unlimited, []);
    FollowingNothing(Streams.Receive(r, input, started, Unlimited));
    if frames == [] {
      NoBits(w, tail);
      FailedFrame(r, input, started);
    } else {
      FirstBits(w, frames, tail);
      OpenTail(w, r, frames);
      NextFrame(w, r, frames[0], started, AllBits(w, frames[1..]) + tail, ending);
      ReceiveFault(w, r, frames[1..], true, tail, ending, before + |frames[0].data|);
      assert [] + frames[0].data == frames[0].data;
    }
  }

  lemma NoBits(w: Processor, tail: Bytes)
    ensures AllBits(w, []) + tail == tail
  {
  }

  lemma FailedFrame(r: Processor, input: Input, started: bool)
    requires r.Read(input).result.Err?
    ensures ReceiveFrame(r, input, started, Unlimited) ==
            FrameStep(Received([], Unlimited, Some(r.Read(input).result.error), r.Read(input).rest), false)
  {
    hide Processor.Read;
  }

  lemma OpenTail(w: Processor, r: Processor, frames: seq<Frame>)
    requires Pass(w, r, frames) && NeverClosed(frames) && frames != []
    ensures Sends(w, frames[0]) && r.Base().Fits(|w.Packed(frames[0]).data|) && !LastFrame.In(frames[0].flags)
    ensures Pass(w, r, frames[1..]) && NeverClosed(frames[1..])
  {
  }

  lemma NextFrame(w: Processor, r: Processor, frame: Frame, started: bool, rest: Bytes, ending: Ending)
    requires Understands(r, w) && Sends(w, frame) && r.Base().Fits(|w.Packed(frame).data|)
    requires started || Fragmented.In(frame.flags)
    ensures ReceiveFrame(r, Input(Bits(w, frame) + rest, ending), started, Unlimited) ==
            FrameStep(Received(frame.data, Unlimited, None, Input(rest, ending)), !LastFrame.In(frame.flags))
  {
    hide Processor.Read, Understands, Bits, Flag.In, Sends;
    ReadPacked(w, r, frame, rest, ending);
  }

  /**
   * A tracked receive of a stream that breaks ends Completed exactly if the frames received before
   * came to 1 MiB at some point, and Failed otherwise.
   */
  lemma FaultVerdict(w: Processor, r: Processor, frames: seq<Frame>, tail: Bytes, ending: Ending)
    requires Understands(r, w) && Pass(w, r, frames) && NeverClosed(frames)
    requires frames != [] && Fragmented.In(frames[0].flags)
    requires r.Read(Input(tail, ending)).result.Err?
    ensures ReceiveVerdict(r, Input(AllBits(w, frames) + tail, ending), Unlimited) ==
            if SumsUp(frames, 0) then TransferStatus.Completed else TransferStatus.Failed
  {
    hide Processor.Read, Understands, Bits, Flag.In, Reaches, Streams.Receive, SumsUp, Pass;
    ReceiveFault(w, r, frames, false, tail, ending, 0);
    var later := AllBits(w, frames[1..]);
    assert AllBits(w, frames) + tail == Bits(w, frames[0]) + (later + tail);
    FirstPasses(w, r, frames);
    ReadPacked(w, r, frames[0], later + tail, ending);
  }

  lemma FirstPasses(w: Processor, r: Processor, frames: seq<Frame>)
    requires Pass(w, r, frames) && frames != []
    ensures Sends(w, frames[0]) && r.Base().Fits(|w.Packed(frames[0]).data|)
  {
  }

  /** Full chunks of a length that divides 1 MiB come to it, if there are enough of them. */
  lemma {:induction false} FullChunks(frames: seq<Frame>, n: nat, chunk: nat, before: nat)
    requires 0 < n <= |frames| && before + n * chunk == LARGE_MESSAGE
    requires forall i :: 0 <= i < n ==> |frames[i].data| == chunk
    ensures SumsUp(frames, before)
  {
    if n > 1 {
      assert (n - 1) * chunk + chunk == n * chunk;
      FullChunks(frames[1..], n - 1, chunk, before + chunk);
    }
  }

  // ----- what callers are told -----

  /**
   * If the error handler ignores nothing, a receiver never reports success on a stream that was cut off
   * or never closed, whatever its writer takes.
   */
  lemma CutOffIsTold(w: Processor, r: Processor, frames: seq<Frame>, p: Bytes, ending: Ending, quota: Quota,
                     outcome: Outcome, advice: Error -> Strategy)
    requires Understands(r, w) && Pass(w, r, frames) && Unfinished(w, frames, p)
    requires Tells(outcome, Streams.Receive(r, Input(p, ending), false, quota).error, advice) && NeverIgnores(advice)
    ensures outcome != Success
  {
    hide Streams.Receive, Understands, Pass, Unfinished;
    ReceiveCutOff(w, r, frames, false, p, ending, quota);
  }

  // ----- what the tracker counts -----

  /** The data that got through before the last frame with data that was written whole. */
  function BeforeLast(processor: Processor, frames: seq<Frame>, quota: Quota): nat {
    if frames == [] then 0
    else
      var w := processor.Offer(frames[0].data, frames[0].flags, quota);
      if w.error.Some? || Through(processor, frames[1..], w.quota) == 0 then 0
      else |frames[0].data| + BeforeLast(processor, frames[1..], w.quota)
  }

  /**
   * A sender's tracker has counted exactly the bytes that were moved, if and only if the announced size
   * is unknown, or was not reached before the last of them were sent; it never counts more.
   */
  lemma {:induction false} TallyExact(processor: Processor, frames: seq<Frame>, quota: Quota, total: int, moved: nat)
    ensures var all := moved + Through(processor, frames, quota);
            && Tally(processor, frames, quota, total, moved) <= all
            && (Tally(processor, frames, quota, total, moved) == all <==>
                all == moved || total <= 0 || moved + BeforeLast(processor, frames, quota) < total)
    ensures BeforeLast(processor, frames, quota) <= Through(processor, frames, quota)
    ensures Through(processor, frames, quota) > 0 ==>
              BeforeLast(processor, frames, quota) < Through(processor, frames, quota)
    decreases |frames|
  {
    hide Processor.Offer;
    if frames != [] {
      var w := processor.Offer(frames[0].data, frames[0].flags, quota);
      TallyExact(processor, frames[1..], w.quota, total, moved + |frames[0].data|);
    }
  }

  /** So a stream that is not longer than announced is counted exactly. */
  lemma AnnouncedIsCounted(processor: Processor, frames: seq<Frame>, quota: Quota, total: int)
    requires total <= 0 || Through(processor, frames, quota) <= total
    ensures Tally(processor, frames, quota, total, 0) == Through(processor, frames, quota)
  {
    hide Tally, Through, BeforeLast;
    TallyExact(processor, frames, quota, total, 0);
  }

  /** A frame is written whole exactly if the connection takes all its bytes. */
  lemma {:induction false} ThroughOnWire(w: Processor, frames: seq<Frame>, quota: Quota) returns (k: nat)
    requires SendsAll(w, frames)
    ensures k <= |frames| && Through(w, frames, quota) == |Joined(frames[..k])|
    ensures AllBits(w, frames[..k]) <= Emit(w, frames, quota).bytes
    ensures k < |frames| ==> |Emit(w, frames, quota).bytes| < |AllBits(w, frames[..k + 1])|
    decreases |frames|
  {
    hide Processor.Offer, Bits, Sends;
    if frames == [] {
      k := 0;
    } else {
      OfferBits(w, frames[0], quota);
      var offered := w.Offer(frames[0].data, frames[0].flags, quota);
      if offered.error.None? {
        var n := ThroughOnWire(w, frames[1..], offered.quota);
        k := n + 1;
        assert frames[..k][1..] == frames[1..][..n];
        if k < |frames| {
          assert frames[..k + 1][1..] == frames[1..][..n + 1];
        }
      } else {
        k := 0;
        assert frames[..1][1..] == [] && frames[..1][0] == frames[0];
        assert AllBits(w, frames[..1]) == Bits(w, frames[0]) + [];
      }
    }
  }

  /**
   * A receiver's tracker has counted exactly the bytes of a stream that was received without an error,
   * unless they came to exactly 1 MiB behind a frame before the last; then that is what it counted.
   */
  lemma {:induction false} ReceiveTallyExact(r: Processor, input: Input, started: bool, quota: Quota, before: nat)
    requires Streams.Receive(r, input, started, quota).error.None?
    ensures ReceiveTally(r, input, started, quota, before) ==
            if Reaches(r, input, started, quota, before) then LARGE_MESSAGE
            else before + |Streams.Receive(r, input, started, quota).written|
    decreases |input.bytes|
  {
    hide ReceiveFrame, Streams.Receive, Reaches, ReceiveTally;
    var s := ReceiveFrame(r, input, started, quota);
    ReceiveFrameShrinks(r, input, started, quota);
    ReachesLoop(r, input, started, quota, before);
    ReceiveTallyLoop(r, input, started, quota, before);
    ReceiveLoop(r, input, started, quota, []);
    FollowingNothing(Streams.Receive(r, input, started, quota));
    assert [] + s.received.written == s.received.written;
    var after := before + |s.received.written|;
    if s.more && after != LARGE_MESSAGE {
      ReceiveTallyExact(r, s.received.rest, true, s.received.quota, after);
    }
  }

  /** A whole stream that comes to 1 MiB before its last frame is counted as 1 MiB. */
  lemma {:induction false} CountStops(w: Processor, r: Processor, frames: seq<Frame>, started: bool, suffix: Bytes,
                                      ending: Ending, before: nat)
    requires Understands(r, w) && Pass(w, r, frames) && ClosedByLast(frames)
    requires started || Fragmented.In(frames[0].flags)
    requires SumsUp(frames[..|frames| - 1], before)
    ensures ReceiveTally(r, Input(AllBits(w, frames) + suffix, ending), started, Unlimited, before) == LARGE_MESSAGE
    decreases |frames|
  {
    hide Processor.Read, Understands, Bits, Flag.In, ReceiveTally, Sends;
    var frame, later := frames[0], AllBits(w, frames[1..]);
    var input := Input(AllBits(w, frames) + suffix, ending);
    assert input.bytes == Bits(w, frame) + (later + suffix);
    ReadPacked(w, r, frame, later + suffix, ending);
    ReceiveTallyLoop(r, input, started, Unlimited, before);
    assert frames[..|frames| - 1][1..] == frames[1..][..|frames| - 2];
    if before + |frame.data| != LARGE_MESSAGE {
      CountStops(w, r, frames[1..], true, suffix, ending, before + |frame.data|);
    }
  }
}
