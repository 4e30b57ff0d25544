/** Many streams over one connection: what a receiver makes of them, one call after the other. */
module StreamRuns {
  import opened ByteOrder
  import opened IO
  import opened Frames
  import opened Processors
  import opened Sizes
  import opened Streams
  import opened StreamTheory

  type Chunk = c: nat | 0 < c <= LARGE_CHUNK witness SMALL_CHUNK

  /** One call of SendStream: what its reader delivers, and the chunk size that its announced size gives. */
  datatype Stream = Stream(script: seq<Block>, chunk: Chunk)
  {
    function Data(): Bytes {
      Content(script)
    }

    /** The reader came to its end, so that the stream was closed. */
    predicate Closed() {
      EndOf(script).Done?
    }

    function Planned(): seq<Frame> {
      Plan(script, chunk, true)
    }
  }

  predicate Fit(w: Processor, r: Processor, streams: seq<Stream>) {
    forall s :: s in streams ==> w.Base().Fits(s.chunk) && r.Base().Fits(s.chunk)
  }

  function SendEach(w: Processor, streams: seq<Stream>): Bytes {
    if streams == [] then [] else Emit(w, streams[0].Planned(), Unlimited).bytes + SendEach(w, streams[1..])
  }

  /** What one call of ReceiveStream wrote, and how it ended. */
  datatype Report = Report(data: Bytes, error: Option<Error>)

  datatype Several = Several(reports: seq<Report>, rest: Input)

  /** n calls of ReceiveStream in a row, each with a writer that takes everything. */
  function ReceiveEach(r: Processor, input: Input, n: nat): Several
    decreases n
  {
    if n == 0 then Several([], input)
    else
      var got := Receive(r, input, false, Unlimited);
      var later := ReceiveEach(r, got.rest, n - 1);
      Several([Report(got.written, got.error)] + later.reports, later.rest)
  }

  function ReportOf(data: Bytes): Report {
    Report(data, if data == [] then Some(ProtocolViolation) else None)
  }

  /**
   * What the calls report: a closed stream ends a call, with all data since the last closed one. The
   * data of a stream that was not closed, since its reader failed, is carried over to the next.
   */
  function Reports(streams: seq<Stream>, carried: Bytes): seq<Report> {
    if streams == [] then []
    else
      var data := carried + streams[0].Data();
      if streams[0].Closed() then [ReportOf(data)] + Reports(streams[1..], []) else Reports(streams[1..], data)
  }

  /** The frames that no call has taken: those behind the last closed stream. */
  function Leftover(streams: seq<Stream>, open: seq<Frame>): seq<Frame> {
    if streams == [] then open
    else Leftover(streams[1..], if streams[0].Closed() then [] else open + streams[0].Planned())
  }

  // ----- frames put together -----

  lemma {:induction false} AllBitsAppend(w: Processor, a: seq<Frame>, b: seq<Frame>)
    ensures AllBits(w, a + b) == AllBits(w, a) + AllBits(w, b)
  {
    hide Bits;
    if a == [] {
      assert a + b == b;
    } else {
      assert (a + b)[1..] == a[1..] + b;
      AllBitsAppend(w, a[1..], b);
    }
  }

  lemma {:induction false} JoinedAppend(a: seq<Frame>, b: seq<Frame>)
    ensures Joined(a + b) == Joined(a) + Joined(b)
  {
    if a == [] {
      assert a + b == b;
    } else {
      assert (a + b)[1..] == a[1..] + b;
      JoinedAppend(a[1..], b);
    }
  }

  /** A reader that fails before it delivers anything makes no frames. */
  lemma {:induction false} NothingPlanned(script: seq<Block>, chunk: nat)
    requires chunk > 0 && Content(script) == [] && EndOf(script).Broken?
    ensures Plan(script, chunk, true) == []
    decreases Weight(script)
  {
    ReadStepDelivers(script, chunk);
    var r := ReadStep(script, chunk);
    if r.status.More? {
      NothingPlanned(r.rest, chunk);
    }
  }

  /** Frames of streams that were not closed. The first of them opens a stream, and there is data if there are frames. */
  predicate Pending(w: Processor, r: Processor, open: seq<Frame>) {
    && Pass(w, r, open) && NeverClosed(open)
    && (open != [] ==> Fragmented.In(open[0].flags) && Joined(open) != [])
  }

  lemma PassAppend(w: Processor, r: Processor, a: seq<Frame>, b: seq<Frame>)
    requires Pass(w, r, a) && Pass(w, r, b)
    ensures Pass(w, r, a + b)
  {
    hide Sends;
  }

  /** What is known of the frames of one more stream, behind the open ones. */
  lemma Continued(w: Processor, r: Processor, open: seq<Frame>, s: Stream)
    requires Pending(w, r, open) && Fit(w, r, [s])
    ensures var frames := open + s.Planned();
            && Pass(w, r, frames)
            && Joined(frames) == Joined(open) + s.Data()
            && AllBits(w, frames) == AllBits(w, open) + Emit(w, s.Planned(), Unlimited).bytes
            && (if s.Closed() then ClosedByLast(frames) else Pending(w, r, frames))
            && (Joined(frames) != [] ==> Fragmented.In(frames[0].flags))
            && (Joined(frames) == [] ==> open == [])
  {
    hide Plan, Content, EndOf, Emit, AllBits, Sends, Flag.In;
    var planned := s.Planned();
    assert s in [s];
    PlanShape(s.script, s.chunk, true);
    PlanPasses(w, r, s.script, s.chunk, true);
    EmitAll(w, planned);
    PassAppend(w, r, open, planned);
    AllBitsAppend(w, open, planned);
    JoinedAppend(open, planned);
    if !s.Closed() && s.Data() == [] {
      NothingPlanned(s.script, s.chunk);
    }
  }

  /** One call takes everything up to the next stream that was closed. */
  lemma OneCall(w: Processor, r: Processor, open: seq<Frame>, s: Stream, suffix: Bytes, ending: Ending)
    requires Understands(r, w) && Pending(w, r, open) && Fit(w, r, [s]) && s.Closed()
    ensures var data := Joined(open) + s.Data();
            Receive(r, Input(AllBits(w, open + s.Planned()) + suffix, ending), false, Unlimited) ==
            Received(data, Unlimited, ReportOf(data).error, Input(suffix, ending))
  {
    hide Plan, Content, EndOf, Emit, AllBits, Receive, Pass, Understands, Flag.In;
    var frames := open + s.Planned();
    Continued(w, r, open, s);
    NothingPending(w, r);
    if Joined(frames) != [] {
      ReceiveFrames(w, r, frames, false, suffix, ending);
    } else {
      assert s in [s];
      assert s.Data() == [] && [] + Emit(w, s.Planned(), Unlimited).bytes == Emit(w, s.Planned(), Unlimited).bytes;
      StreamRoundTrip(w, r, s.script, s.chunk, suffix, ending);
    }
  }

  lemma FirstCall(r: Processor, input: Input, n: nat)
    requires n > 0
    ensures var got := Receive(r, input, false, Unlimited);
            var later := ReceiveEach(r, got.rest, n - 1);
            ReceiveEach(r, input, n) == Several([Report(got.written, got.error)] + later.reports, later.rest)
  {
    hide Receive;
  }

  lemma FitStep(w: Processor, r: Processor, streams: seq<Stream>)
    requires Fit(w, r, streams) && streams != []
    ensures Fit(w, r, [streams[0]]) && Fit(w, r, streams[1..])
  {
    assert forall t :: t in streams[1..] ==> t in streams;
    assert streams[0] in streams;
  }

  lemma {:induction false} CallByCall(w: Processor, r: Processor, open: seq<Frame>, streams: seq<Stream>, suffix: Bytes,
                                      ending: Ending)
    requires Understands(r, w) && Pending(w, r, open) && Fit(w, r, streams)
    ensures var reports := Reports(streams, Joined(open));
            ReceiveEach(r, Input(AllBits(w, open) + SendEach(w, streams) + suffix, ending), |reports|) ==
            Several(reports, Input(AllBits(w, Leftover(streams, open)) + suffix, ending))
    decreases |streams|
  {
    hide Plan, Content, EndOf, Emit, AllBits, Receive, Pending, Understands, Fit, Joined, ReceiveEach, ReportOf,
         Stream.Planned, Stream.Data, Stream.Closed;
    if streams == [] {
      assert AllBits(w, open) + SendEach(w, streams) == AllBits(w, open);
      NoCall(r, Input(AllBits(w, open) + suffix, ending));
    } else {
      var s, later := streams[0], SendEach(w, streams[1..]);
      var frames := open + s.Planned();
      var input := Input(AllBits(w, open) + SendEach(w, streams) + suffix, ending);
      FitStep(w, r, streams);
      Continued(w, r, open, s);
      Regroup(AllBits(w, open), Emit(w, s.Planned(), Unlimited).bytes, later);
      if s.Closed() {
        Regroup(AllBits(w, frames), later, suffix);
        OneCall(w, r, open, s, later + suffix, ending);
        NothingPending(w, r);
        assert [] + later == later;
        CallByCall(w, r, [], streams[1..], suffix, ending);
        FirstCall(r, input, 1 + |Reports(streams[1..], [])|);
        ReportCarries(Joined(open) + s.Data());
      } else {
        CallByCall(w, r, frames, streams[1..], suffix, ending);
      }
    }
  }

  lemma NoCall(r: Processor, input: Input)
    ensures ReceiveEach(r, input, 0) == Several([], input)
  {
  }

  lemma ReportCarries(data: Bytes)
    ensures ReportOf(data).data == data
  {
  }

  lemma NothingPending(w: Processor, r: Processor)
    ensures Pending(w, r, []) && Joined([]) == [] && AllBits(w, []) == []
  {
  }

  // ----- which streams come back as themselves -----

  /** No stream that lost its reader after some data is followed by a stream that was closed. */
  predicate KeptApart(streams: seq<Stream>) {
    forall i, j :: 0 <= i < j < |streams| && !streams[i].Closed() && streams[j].Closed() ==> streams[i].Data() == []
  }

  /** What the calls should report: each closed stream by itself. */
  function OwnReports(streams: seq<Stream>): seq<Report> {
    if streams == [] then []
    else (if streams[0].Closed() then [ReportOf(streams[0].Data())] else []) + OwnReports(streams[1..])
  }

  predicate SomeClosed(streams: seq<Stream>) {
    exists j :: 0 <= j < |streams| && streams[j].Closed()
  }

  lemma ApartStep(streams: seq<Stream>)
    requires streams != []
    ensures KeptApart(streams) <==>
            KeptApart(streams[1..]) && (streams[0].Closed() || streams[0].Data() == [] || !SomeClosed(streams[1..]))
    ensures SomeClosed(streams) <==> streams[0].Closed() || SomeClosed(streams[1..])
  {
    hide Stream.Data, Stream.Closed;
    var later := streams[1..];
    assert forall j :: 0 <= j < |later| ==> later[j] == streams[j + 1];
    assert forall j :: 0 < j < |streams| ==> streams[j] == later[j - 1];
  }

  lemma {:induction false} ReportsOwn(streams: seq<Stream>, carried: Bytes)
    ensures Reports(streams, carried) == OwnReports(streams) <==>
            KeptApart(streams) && (carried == [] || !SomeClosed(streams))
    ensures |Reports(streams, carried)| == |OwnReports(streams)|
    decreases |streams|
  {
    hide Stream.Data, Stream.Closed, KeptApart, SomeClosed;
    if streams == [] {
      assert KeptApart(streams) && !SomeClosed(streams) by {
        NothingToMix();
      }
    } else {
      ApartStep(streams);
      var data := carried + streams[0].Data();
      if streams[0].Closed() {
        ReportsOwn(streams[1..], []);
        assert Reports(streams, carried)[1..] == Reports(streams[1..], []);
        assert OwnReports(streams)[1..] == OwnReports(streams[1..]);
        assert data == streams[0].Data() <==> carried == [] by {
          assert |data| == |carried| + |streams[0].Data()|;
        }
      } else {
        ReportsOwn(streams[1..], data);
        assert OwnReports(streams) == OwnReports(streams[1..]);
      }
    }
  }

  lemma NothingToMix()
    ensures KeptApart([]) && !SomeClosed([])
  {
  }

  /**
   * Main result on many streams, whatever their readers do and however each ends: call by call, the
   * receiver gets the data since the last closed stream, in order, and refuses a call without any. So
   * it gets each closed stream as itself exactly if none follows one whose reader failed after some
   * data; otherwise a call reports success with the data of several streams.
   */
  lemma BackToBack(w: Processor, r: Processor, streams: seq<Stream>, suffix: Bytes, ending: Ending)
    requires Understands(r, w) && Fit(w, r, streams)
    ensures var all := ReceiveEach(r, Input(SendEach(w, streams) + suffix, ending), |OwnReports(streams)|);
            && all == Several(Reports(streams, []), Input(AllBits(w, Leftover(streams, [])) + suffix, ending))
            && (all.reports == OwnReports(streams) <==> KeptApart(streams))
  {
    hide ReceiveEach, Reports, OwnReports, KeptApart, Understands, Fit;
    NothingPending(w, r);
    CallByCall(w, r, [], streams, suffix, ending);
    ReportsOwn(streams, []);
    assert [] + SendEach(w, streams) == SendEach(w, streams);
  }

  /**
   * A stream whose reader failed, and the next: they are received as one, without an error if they hold
   * anything. The receiver takes for the second stream what is not, exactly if the first had some data.
   */
  lemma JoinsTheNext(w: Processor, r: Processor, one: Stream, two: Stream, suffix: Bytes, ending: Ending)
    requires Understands(r, w) && Fit(w, r, [one, two])
    requires !one.Closed() && two.Closed()
    ensures var sent := Emit(w, one.Planned(), Unlimited).bytes + Emit(w, two.Planned(), Unlimited).bytes;
            var got := Receive(r, Input(sent + suffix, ending), false, Unlimited);
            && got == Received(one.Data() + two.Data(), Unlimited, ReportOf(one.Data() + two.Data()).error,
                               Input(suffix, ending))
            && (got.error.None? && got.written != two.Data() <==> one.Data() != [])
  {
    hide Plan, Content, EndOf, Emit, AllBits, Receive, Understands, Stream.Planned;
    assert one in [one, two] && two in [one, two];
    NothingPending(w, r);
    Continued(w, r, [], one);
    var open := [] + one.Planned();
    Continued(w, r, open, two);
    OneCall(w, r, open, two, suffix, ending);
    assert [] + Emit(w, one.Planned(), Unlimited).bytes == Emit(w, one.Planned(), Unlimited).bytes;
    assert |one.Data() + two.Data()| == |one.Data()| + |two.Data()|;
  }

  // ----- after a receive that failed -----

  /** The frames behind the first whose data does not fit into the writer. */
  function Remaining(frames: seq<Frame>, room: nat): (r: seq<Frame>)
    requires room < |Joined(frames)|
    ensures |r| < |frames| && r == frames[|frames| - |r|..]
  {
    if room < |frames[0].data| then frames[1..] else Remaining(frames[1..], room - |frames[0].data|)
  }

  lemma RemainingStep(frames: seq<Frame>, room: nat)
    requires room < |Joined(frames)|
    ensures if room < |frames[0].data| then
              Remaining(frames, room) == frames[1..] && Joined(frames)[..room] == frames[0].data[..room]
            else
              var left := room - |frames[0].data|;
              && |frames| > 1 && left < |Joined(frames[1..])|
              && Remaining(frames, room) == Remaining(frames[1..], left)
              && Joined(frames)[..room] == frames[0].data + Joined(frames[1..])[..left]
  {
  }

  /** One frame of a stream, before a writer with some room left. */
  lemma OneFrame(w: Processor, r: Processor, frame: Frame, started: bool, room: nat, rest: Bytes, ending: Ending)
    requires Understands(r, w) && Sends(w, frame) && r.Base().Fits(|w.Packed(frame).data|)
    requires started || Fragmented.In(frame.flags)
    ensures ReceiveFrame(r, Input(Bits(w, frame) + rest, ending), started, Limited(room)) ==
            if room < |frame.data| then
              FrameStep(Received(frame.data[..room], Limited(0), Some(SinkFault), Input(rest, ending)), false)
            else
              FrameStep(Received(frame.data, Limited(room - |frame.data|), None, Input(rest, ending)),
                        !LastFrame.In(frame.flags))
  {
    hide Processor.Read, Understands, Bits, Flag.In, Sends;
    ReadPacked(w, r, frame, rest, ending);
  }

  lemma TailCloses(w: Processor, r: Processor, frames: seq<Frame>)
    requires Pass(w, r, frames) && ClosedByLast(frames)
    ensures Sends(w, frames[0]) && r.Base().Fits(|w.Packed(frames[0]).data|)
    ensures |frames| > 1 ==> !LastFrame.In(frames[0].flags) && Pass(w, r, frames[1..]) && ClosedByLast(frames[1..])
  {
  }

  /** A writer that breaks has got all it takes, and the stream is left behind the frame that did not fit. */
  lemma {:induction false} WriterBreaks(w: Processor, r: Processor, frames: seq<Frame>, started: bool, room: nat,
                                        suffix: Bytes, ending: Ending)
    requires Understands(r, w) && Pass(w, r, frames) && ClosedByLast(frames)
    requires started || Fragmented.In(frames[0].flags)
    requires room < |Joined(frames)|
    ensures Receive(r, Input(AllBits(w, frames) + suffix, ending), started, Limited(room)) ==
            Received(Joined(frames)[..room], Limited(0), Some(SinkFault),
                     Input(AllBits(w, Remaining(frames, room)) + suffix, ending))
    decreases |frames|
  {
    hide Processor.Read, Understands, Bits, AllBits, Flag.In, Remaining, Joined, Receive, ReceiveFrame, Pass, ClosedByLast;
    assert frames != [] by {
      ClosesSomething(frames);
    }
    var frame, later := frames[0], AllBits(w, frames[1..]);
    var input := Input(AllBits(w, frames) + suffix, ending);
    FirstBits(w, frames, suffix);
    RemainingStep(frames, room);
    TailCloses(w, r, frames);
    OneFrame(w, r, frame, started, room, later + suffix, ending);
    ReceiveLoop(r, input, started, Limited(room), []);
    FollowingNothing(Receive(r, input, started, Limited(room)));
    if room >= |frame.data| {
      WriterBreaks(w, r, frames[1..], true, room - |frame.data|, suffix, ending);
      assert [] + frame.data == frame.data;
    } else {
      assert [] + frame.data[..room] == frame.data[..room];
    }
  }

  lemma FirstBits(w: Processor, frames: seq<Frame>, suffix: Bytes)
    requires frames != []
    ensures AllBits(w, frames) + suffix == Bits(w, frames[0]) + (AllBits(w, frames[1..]) + suffix)
  {
    hide Bits;
  }

  lemma ClosesSomething(frames: seq<Frame>)
    requires ClosedByLast(frames)
    ensures frames != []
  {
  }

  /** Frames in the middle of a stream cost a call each. */
  lemma {:induction false} Drained(w: Processor, r: Processor, frames: seq<Frame>, suffix: Bytes, ending: Ending)
    requires Understands(r, w) && Pass(w, r, frames)
    requires forall i :: 0 <= i < |frames| ==> !Fragmented.In(frames[i].flags)
    ensures ReceiveEach(r, Input(AllBits(w, frames) + suffix, ending), |frames|) ==
            Several(seq(|frames|, _ => ReportOf([])), Input(suffix, ending))
    decreases |frames|
  {
    hide Processor.Read, Understands, Bits, Flag.In;
    if frames == [] {
      assert AllBits(w, frames) + suffix == suffix;
    } else {
      var frame, later := frames[0], AllBits(w, frames[1..]);
      assert AllBits(w, frames) + suffix == Bits(w, frame) + (later + suffix);
      ReadPacked(w, r, frame, later + suffix, ending);
      Drained(w, r, frames[1..], suffix, ending);
    }
  }

  /**
   * When the receiver's writer breaks in the middle of a stream, each frame that remains of the stream
   * costs one later call a protocol violation, and then the connection is at the next stream.
   */
  lemma Recovers(w: Processor, r: Processor, s: Stream, room: nat, suffix: Bytes, ending: Ending)
    requires Understands(r, w) && Fit(w, r, [s]) && s.Closed()
    requires room < |s.Data()|
    ensures Joined(s.Planned()) == s.Data()
    ensures var got := Receive(r, Input(Emit(w, s.Planned(), Unlimited).bytes + suffix, ending), false, Limited(room));
            var behind := |Remaining(s.Planned(), room)|;
            && got.written == s.Data()[..room] && got.error == Some(SinkFault)
            && ReceiveEach(r, got.rest, behind) == Several(seq(behind, _ => ReportOf([])), Input(suffix, ending))
  {
    hide Plan, Content, EndOf, Emit, AllBits, Receive, Understands, Pass, Flag.In, Remaining, ReceiveEach;
    var frames := s.Planned();
    assert s in [s];
    PlanShape(s.script, s.chunk, true);
    PlanPasses(w, r, s.script, s.chunk, true);
    EmitAll(w, frames);
    WriterBreaks(w, r, frames, false, room, suffix, ending);
    var behind := Remaining(frames, room);
    TailPasses(w, r, frames, |frames| - |behind|);
    Drained(w, r, behind, suffix, ending);
  }

  lemma TailPasses(w: Processor, r: Processor, frames: seq<Frame>, k: nat)
    requires Pass(w, r, frames) && k <= |frames|
    ensures Pass(w, r, frames[k..])
  {
  }
}
