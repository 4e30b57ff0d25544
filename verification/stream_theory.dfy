/** What the stream protocol guarantees to its two ends. */
module StreamTheory {
  import opened ByteOrder
  import opened IO
  import opened Frames
  import opened FrameTheory
  import opened Processors
  import opened Sizes
  import opened Streams

  /** All data of a run of frames. */
  function Joined(frames: seq<Frame>): Bytes {
    if frames == [] then [] else frames[0].data + Joined(frames[1..])
  }

  /** Only the last frame closes the stream. */
  predicate ClosedByLast(frames: seq<Frame>) {
    && frames != []
    && forall i :: 0 <= i < |frames| ==> (LastFrame.In(frames[i].flags) <==> i == |frames| - 1)
  }

  predicate NeverClosed(frames: seq<Frame>) {
    forall i :: 0 <= i < |frames| ==> !LastFrame.In(frames[i].flags)
  }

  // ----- frames of a stream, received -----

  /** A run of frames that opens and closes a stream is received whole, and nothing behind it is touched. */
  lemma {:induction false} ReceiveFrames(w: Processor, r: Processor, frames: seq<Frame>, started: bool, suffix: Bytes,
                                         ending: Ending)
    requires Understands(r, w) && Pass(w, r, frames)
    requires ClosedByLast(frames)
    requires started || Fragmented.In(frames[0].flags)
    ensures Receive(r, Input(AllBits(w, frames) + suffix, ending), started, Unlimited) ==
            Received(Joined(frames), Unlimited, None, Input(suffix, ending))
    decreases |frames|
  {
    hide Processor.Read, Understands, Bits, Flag.In;
    var frame, later := frames[0], AllBits(w, frames[1..]);
    assert AllBits(w, frames) + suffix == Bits(w, frame) + (later + suffix);
    ReadPacked(w, r, frame, later + suffix, ending);
    if |frames| == 1 {
      assert later + suffix == suffix;
      assert Joined(frames) == frame.data;
    } else {
      ReceiveFrames(w, r, frames[1..], true, suffix, ending);
    }
  }

  /** `p` is the first part of a stream's bytes, but not a whole stream. */
  predicate Unfinished(w: Processor, frames: seq<Frame>, p: Bytes) {
    && p <= AllBits(w, frames)
    && (NeverClosed(frames) || (ClosedByLast(frames) && p != AllBits(w, frames)))
  }

  /** The first frame of an unfinished stream does not close it, and leaves an unfinished stream. */
  lemma UnfinishedTail(w: Processor, r: Processor, frames: seq<Frame>, p: Bytes, ending: Ending)
    requires Understands(r, w) && Pass(w, r, frames)
    requires Unfinished(w, frames, p)
    requires r.Read(Input(p, ending)).result.Ok?
    ensures frames != []
    ensures var first := r.Read(Input(p, ending));
            && !LastFrame.In(first.result.value.flags)
            && first.result.value.data == frames[0].data
            && first.rest.ending == ending
            && Pass(w, r, frames[1..])
            && Unfinished(w, frames[1..], first.rest.bytes)
  {
    hide Processor.Read, Understands, Bits;
    var first := r.Read(Input(p, ending));
    FirstOfRun(w, r, frames, p, ending);
    assert LastFrame.In(frames[0].flags) ==> |frames| == 1 && first.rest.bytes == [];
  }

  /**
   * A stream that was cut off, or never closed, is never taken for a complete one: the receiver
   * reports an error, and has written a prefix of the stream's data.
   */
  lemma {:induction false} ReceiveCutOff(w: Processor, r: Processor, frames: seq<Frame>, started: bool, p: Bytes,
                                         ending: Ending, quota: Quota)
    requires Understands(r, w) && Pass(w, r, frames)
    requires Unfinished(w, frames, p)
    ensures var got := Receive(r, Input(p, ending), started, quota);
            got.error.Some? && got.written <= Joined(frames)
    decreases |frames|
  {
    hide Processor.Read, Unfinished, Pass, Understands;
    var first := r.Read(Input(p, ending));
    if first.result.Ok? {
      UnfinishedTail(w, r, frames, p, ending);
      if quota.Admits(|frames[0].data|) {
        ReceiveCutOff(w, r, frames[1..], true, first.rest.bytes, ending, quota.After(frames[0].data));
      }
    }
  }

  /**
   * Which error that is, if the receiver's writer takes everything: the connection's own if it broke,
   * else an end of file, expected or not.
   */
  lemma {:induction false} WhyCutOff(w: Processor, r: Processor, frames: seq<Frame>, started: bool, p: Bytes,
                                     ending: Ending)
    requires Understands(r, w) && Pass(w, r, frames)
    requires Unfinished(w, frames, p)
    requires started || frames == [] || Fragmented.In(frames[0].flags)
    ensures var error := Receive(r, Input(p, ending), started, Unlimited).error;
            match ending
            case Broken(e) => error == Some(e)
            case Done => error in {Some(EndOfFile), Some(UnexpectedEnd)}
    decreases |frames|
  {
    hide Processor.Read, Unfinished, Pass, Understands, Flag.In;
    var first := r.Read(Input(p, ending));
    if first.result.Ok? {
      UnfinishedTail(w, r, frames, p, ending);
      OpensFirst(w, r, frames, p, ending);
      WhyCutOff(w, r, frames[1..], true, first.rest.bytes, ending);
    } else {
      UnfinishedIsPart(w, frames, p);
      FailsForWant(w, r, frames, p, ending);
    }
  }

  lemma UnfinishedIsPart(w: Processor, frames: seq<Frame>, p: Bytes)
    requires Unfinished(w, frames, p)
    ensures p <= AllBits(w, frames)
  {
  }

  lemma OpensFirst(w: Processor, r: Processor, frames: seq<Frame>, p: Bytes, ending: Ending)
    requires Understands(r, w) && Pass(w, r, frames)
    requires Unfinished(w, frames, p) && frames != []
    requires r.Read(Input(p, ending)).result.Ok?
    ensures Fragmented.In(r.Read(Input(p, ending)).result.value.flags) == Fragmented.In(frames[0].flags)
  {
    hide Processor.Read, Understands, Bits, Flag.In;
    var t := AllBits(w, frames)[|p|..];
    assert p + t == AllBits(w, frames);
    Extends(r, p, t, ending, ending);
    ReadPacked(w, r, frames[0], AllBits(w, frames[1..]), ending);
  }

  // ----- the frames SendStream makes -----

  /**
   * Whatever blocks the reader chooses, the frames hold its data in order, none is longer than a
   * chunk, the first one with data opens the stream, and exactly the last one closes it.
   */
  lemma {:induction false} PlanShape(script: seq<Block>, chunk: nat, first: bool)
    requires chunk > 0
    ensures var frames := Plan(script, chunk, first);
            && Joined(frames) == Content(script)
            && (forall i :: 0 <= i < |frames| ==> |frames[i].data| <= chunk)
            && (forall i :: 0 <= i < |frames| ==>
                  (Fragmented.In(frames[i].flags) <==> first && i == 0 && Content(script) != []))
            && (forall i :: 0 <= i < |frames| ==> !Compressed.In(frames[i].flags))
            && (if EndOf(script).Done? then ClosedByLast(frames) else NeverClosed(frames))
    decreases Weight(script)
  {
    hide ReadStep, Flag.In;
    ReadStepDelivers(script, chunk);
    var r := ReadStep(script, chunk);
    StreamFlagsMeaning(first, r.status.Done?);
    StreamFlagsMeaning(false, true);
    if r.status.More? {
      PlanShape(r.rest, chunk, first && r.block == []);
    }
    var frames := Plan(script, chunk, first);
    if r.block != [] {
      var later := if r.status.More? then Plan(r.rest, chunk, false) else [];
      assert frames[1..] == later;
      assert Joined(frames) == r.block + Joined(later);
    } else if r.status.Done? {
      assert Joined(frames) == [];
    }
  }

  /**
   * The chunk size that an announced size gives, and the number of full reads that the announced size
   * then takes: at most 32 below 128 KiB, 8 to 64 below 1 MiB, and one for every 64 KiB from there.
   */
  lemma AnnouncedChunks(size: int)
    ensures var chunk := ChunkSizeFor(size);
            var reading := (size + chunk - 1) / chunk;
            && chunk == (if size < 0x2_0000 then 0x1000 else if size < 0x10_0000 then 0x4000 else 0x1_0000)
            && (0 <= size < 0x2_0000 ==> reading <= 32)
            && (0x2_0000 <= size < 0x10_0000 ==> 8 <= reading <= 64)
            && (0x10_0000 <= size ==> 16 <= reading && (reading - 1) * 0x1_0000 < size <= reading * 0x1_0000)
  {
  }

  /** The largest chunk is the one length of 64 KiB or more that occurs, and its bit 6 is clear. */
  lemma ChunkInDomain(n: nat)
    requires n <= LARGE_CHUNK
    ensures InDomain(n)
  {
    assert LARGE_CHUNK % 0x80 == 0;
  }

  /** Chunks of at most 64 KiB stay inside the domain of the codec, compressed or not. */
  lemma PlanPasses(w: Processor, r: Processor, script: seq<Block>, chunk: nat, first: bool)
    requires 0 < chunk <= LARGE_CHUNK && w.Base().Fits(chunk) && r.Base().Fits(chunk)
    ensures Pass(w, r, Plan(script, chunk, first))
  {
    PlanShape(script, chunk, first);
    var frames := Plan(script, chunk, first);
    forall i | 0 <= i < |frames|
      ensures Sends(w, frames[i]) && r.Base().Fits(|w.Packed(frames[i]).data|)
    {
      ChunkPasses(w, r, frames[i], chunk);
    }
  }

  lemma ChunkPasses(w: Processor, r: Processor, frame: Frame, chunk: nat)
    requires chunk <= LARGE_CHUNK && w.Base().Fits(chunk) && r.Base().Fits(chunk)
    requires |frame.data| <= chunk && !Compressed.In(frame.flags)
    ensures Sends(w, frame) && r.Base().Fits(|w.Packed(frame).data|)
  {
    hide Processor.Packed, Flag.In;
    PackedSize(w, frame);
    ChunkInDomain(|w.Packed(frame).data|);
  }

  /** An unbroken sink gets all the frames. */
  lemma {:induction false} EmitAll(w: Processor, frames: seq<Frame>)
    requires SendsAll(w, frames)
    ensures Emit(w, frames, Unlimited) == Written(AllBits(w, frames), Unlimited, None)
  {
    hide Processor.Offer, Bits, Sends;
    if frames != [] {
      OfferBits(w, frames[0], Unlimited);
      EmitAll(w, frames[1..]);
    }
  }

  /** A sink that breaks has received a strict prefix of the frames' bytes. */
  lemma {:induction false} EmitPrefix(w: Processor, frames: seq<Frame>, quota: Quota)
    requires SendsAll(w, frames)
    ensures var sent := Emit(w, frames, quota);
            && sent.bytes <= AllBits(w, frames)
            && (sent.error.None? <==> sent.bytes == AllBits(w, frames))
  {
    hide Processor.Offer, Bits, Sends;
    if frames != [] {
      OfferBits(w, frames[0], quota);
      var offered := w.Offer(frames[0].data, frames[0].flags, quota);
      if offered.error.None? {
        EmitPrefix(w, frames[1..], offered.quota);
      }
    }
  }

  /**
   * Main result on streams, for both frame processors, with or without compression and recovery at
   * either end. For every reader, whatever its blocks, and whatever follows on the connection: what
   * SendStream wrote is received as exactly the reader's data, leaving exactly what follows, if and
   * only if there was any data; a stream of nothing is refused by the receiver.
   */
  lemma StreamRoundTrip(w: Processor, r: Processor, script: seq<Block>, chunk: nat, suffix: Bytes, ending: Ending)
    requires Understands(r, w)
    requires EndOf(script).Done?
    requires 0 < chunk <= LARGE_CHUNK && w.Base().Fits(chunk) && r.Base().Fits(chunk)
    ensures var sent := Emit(w, Plan(script, chunk, true), Unlimited);
            && SendError(sent, EndOf(script)) == None
            && Receive(r, Input(sent.bytes + suffix, ending), false, Unlimited) ==
               Received(Content(script), Unlimited, if Content(script) != [] then None else Some(ProtocolViolation),
                        Input(suffix, ending))
  {
    hide Processor.Read, Understands, Bits, ReadStep, Flag.In;
    var frames := Plan(script, chunk, true);
    PlanShape(script, chunk, true);
    PlanPasses(w, r, script, chunk, true);
    EmitAll(w, frames);
    if Content(script) != [] {
      ReceiveFrames(w, r, frames, false, suffix, ending);
    } else {
      EmptyPlan(script, chunk);
      var later := AllBits(w, frames[1..]);
      assert later + suffix == suffix;
      assert AllBits(w, frames) + suffix == Bits(w, frames[0]) + suffix;
      ReadPacked(w, r, frames[0], suffix, ending);
      assert !Fragmented.In(frames[0].flags);
    }
  }

  /** Without data there is one frame, and it only closes. */
  lemma {:induction false} EmptyPlan(script: seq<Block>, chunk: nat)
    requires chunk > 0 && Content(script) == [] && EndOf(script).Done?
    ensures Plan(script, chunk, true) == [Frame([], LastFrame.Bit())]
    decreases Weight(script)
  {
    ReadStepDelivers(script, chunk);
    var r := ReadStep(script, chunk);
    if r.status.More? {
      EmptyPlan(r.rest, chunk);
    }
  }

  /**
   * If nothing else is written on the connection, there is no false success: if the sender's
   * connection or its reader failed, or bytes are missing, then whatever the receiver gets of the
   * stream, it reports an error, and has written a prefix of the reader's data.
   */
  lemma NoFalseSuccess(w: Processor, r: Processor, script: seq<Block>, chunk: nat, quota: Quota, arrived: Bytes,
                       ending: Ending, room: Quota)
    requires Understands(r, w)
    requires 0 < chunk <= LARGE_CHUNK && w.Base().Fits(chunk) && r.Base().Fits(chunk)
    requires arrived <= Emit(w, Plan(script, chunk, true), quota).bytes
    requires SendError(Emit(w, Plan(script, chunk, true), quota), EndOf(script)).Some?
             || arrived != Emit(w, Plan(script, chunk, true), quota).bytes
    ensures var got := Receive(r, Input(arrived, ending), false, room);
            got.error.Some? && got.written <= Content(script)
  {
    hide Processor.Read, Understands, Bits;
    var frames := Plan(script, chunk, true);
    PlanShape(script, chunk, true);
    PlanPasses(w, r, script, chunk, true);
    EmitPrefix(w, frames, quota);
    ReceiveCutOff(w, r, frames, false, arrived, ending, room);
  }
}
