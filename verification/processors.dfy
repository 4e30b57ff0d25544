/**
 * The two frame processors behind one interface, and what a writer and a reader must have in common
 * to understand each other.
 */
module Processors {
  import opened ByteOrder
  import opened IO
  import opened Frames
  import opened FrameTheory
  import opened AdvancedFrames

  datatype Processor = Basic(codec: FrameCodec) | Advanced(processor: AdvancedFrameProcessor)
  {
    function Base(): FrameCodec {
      match this
      case Basic(codec) => codec
      case Advanced(processor) => processor.codec.base
    }

    /** A frame in the form in which it goes on the wire. */
    function Packed(frame: Frame): Frame {
      match this
      case Basic(_) => frame
      case Advanced(processor) =>
        var p := processor.codec.PayloadOf(frame.data, frame.flags);
        Frame(p.data, p.flags)
    }

    function Offer(data: Bytes, flags: U32, quota: Quota): Written {
      match this
      case Basic(codec) => codec.Offer(data, flags, quota)
      case Advanced(processor) => processor.codec.Offer(data, flags, quota)
    }

    function Read(input: Input): Parsed {
      match this
      case Basic(codec) => codec.Read(input)
      case Advanced(processor) => processor.codec.Read(input)
    }

    /** The counters that a call may change. */
    ghost function Footprint(): set<object> {
      match this
      case Basic(_) => {}
      case Advanced(processor) => {processor}
    }

    method WriteFrame(writer: Sink, data: Bytes, flags: U32) returns (error: Option<Error>)
      modifies writer, Footprint()
      ensures var w := Offer(data, flags, old(writer.quota));
              writer.written == old(writer.written) + w.bytes && writer.quota == w.quota && error == w.error
    {
      match this
      case Basic(codec) => error := codec.WriteFrame(writer, data, flags);
      case Advanced(processor) => error := processor.WriteFrame(writer, data, flags);
    }

    method ReadFrameWithFlags(reader: Source) returns (r: Result<Frame>)
      modifies reader, Footprint()
      ensures Read(old(reader.Pending())) == Parsed(r, reader.Pending())
    {
      match this
      case Basic(codec) => r := codec.ReadFrameWithFlags(reader);
      case Advanced(processor) => r := processor.ReadFrameWithFlags(reader);
    }

    method ReadFrame(reader: Source) returns (r: Result<Bytes>)
      modifies reader, Footprint()
      ensures var p := Read(old(reader.Pending()));
              && reader.Pending() == p.rest
              && r == (if p.result.Ok? then Ok(p.result.value.data) else Err(p.result.error))
    {
      var frame := ReadFrameWithFlags(reader);
      r := if frame.Ok? then Ok(frame.value.data) else Err(frame.error);
    }
  }

  // ----- frames on the wire -----

  /** The processor accepts the frame, and its form on the wire lies in the domain of the codec. */
  predicate Sends(p: Processor, frame: Frame) {
    Carries(p.Base(), p.Packed(frame)) && !Compressed.In(frame.flags)
  }

  predicate SendsAll(p: Processor, frames: seq<Frame>) {
    forall i :: 0 <= i < |frames| ==> Sends(p, frames[i])
  }

  /** The bytes of a frame, and of a run of frames. */
  function Bits(p: Processor, frame: Frame): Bytes {
    Image(p.Base(), p.Packed(frame))
  }

  function AllBits(p: Processor, frames: seq<Frame>): Bytes {
    if frames == [] then [] else Bits(p, frames[0]) + AllBits(p, frames[1..])
  }

  /** Packing never makes a frame longer. */
  lemma PackedSize(p: Processor, frame: Frame)
    ensures |p.Packed(frame).data| <= |frame.data|
  {
  }

  /** What is offered is the frame's bytes, as far as they get through. */
  lemma OfferBits(p: Processor, frame: Frame, quota: Quota)
    requires Sends(p, frame)
    ensures var bits := Bits(p, frame);
            p.Offer(frame.data, frame.flags, quota) ==
            Written(quota.Accepted(bits), quota.After(bits), if quota.Admits(|bits|) then None else Some(SinkFault))
  {
    hide AdvancedCodec.PayloadOf;
  }

  /**
   * A reader understands a writer if both use the same checksum, and the reader can undo the
   * compression that the writer may do. Their limits and their other options may differ.
   */
  ghost predicate Understands(r: Processor, w: Processor) {
    && r.Base().crc == w.Base().crc
    && (w.Advanced? && w.processor.codec.useCompression ==>
          && r.Advanced? && r.processor.codec.decompress == w.processor.codec.decompress
          && Lossless(w.processor.codec.compress, w.processor.codec.decompress))
  }

  /** The writer sends the frames, and none exceeds the reader's limit. */
  predicate Pass(w: Processor, r: Processor, frames: seq<Frame>) {
    && SendsAll(w, frames)
    && forall i :: 0 <= i < |frames| ==> r.Base().Fits(|w.Packed(frames[i]).data|)
  }

  /** The limit of a codec does not show in the frames it accepts. */
  lemma SameImage(a: FrameCodec, b: FrameCodec, frame: Frame)
    requires a.crc == b.crc && a.Fits(|frame.data|) && b.Fits(|frame.data|)
    ensures Image(a, frame) == Image(b, frame)
  {
  }

  /** One frame, from any writer to any reader that understands it. */
  lemma ReadPacked(w: Processor, r: Processor, frame: Frame, suffix: Bytes, ending: Ending)
    requires Understands(r, w) && Sends(w, frame) && r.Base().Fits(|w.Packed(frame).data|)
    ensures var p := r.Read(Input(Bits(w, frame) + suffix, ending));
            && p.result.Ok? && p.rest == Input(suffix, ending)
            && p.result.value.data == frame.data
            && (Fragmented.In(p.result.value.flags) <==> Fragmented.In(frame.flags))
            && (LastFrame.In(p.result.value.flags) <==> LastFrame.In(frame.flags))
  {
    hide FrameCodec.Read, AdvancedCodec.Read, AdvancedCodec.Corrupt, AdvancedCodec.PayloadOf, FrameCodec.Wire, Flag.In;
    var sent := w.Packed(frame);
    var input := Input(Bits(w, frame) + suffix, ending);
    SameImage(w.Base(), r.Base(), sent);
    ReadOne(r.Base(), sent, suffix, ending);
    PackedFlags(w, frame);
    ReportedKeepsFlags(Fragmented, |sent.data|, sent.flags);
    ReportedKeepsFlags(LastFrame, |sent.data|, sent.flags);
    ReportedKeepsFlags(Compressed, |sent.data|, sent.flags);
    if r.Advanced? {
      ReadsLikeBase(r.processor.codec, input);
      if w.Advanced? && w.processor.codec.useCompression {
        FlagAgrees(w.processor.codec, frame.data, frame.flags);
      }
    }
  }

  /** Packing touches none of the stream flags, and without compression it does nothing. */
  lemma PackedFlags(w: Processor, frame: Frame)
    ensures var sent := w.Packed(frame);
            && (Fragmented.In(sent.flags) <==> Fragmented.In(frame.flags))
            && (LastFrame.In(sent.flags) <==> LastFrame.In(frame.flags))
            && (w.Basic? || !w.processor.codec.useCompression ==> sent == frame)
  {
    SetFlag(Compressed, Fragmented, frame.flags);
    SetFlag(Compressed, LastFrame, frame.flags);
  }

  lemma Shrinks(r: Processor, input: Input)
    ensures var p := r.Read(input);
            && p.rest.ending == input.ending
            && |p.rest.bytes| <= |input.bytes|
            && (p.result.Ok? ==> |p.rest.bytes| + COMPACT_HEADER_SIZE <= |input.bytes|)
  {
    hide FrameCodec.Read, AdvancedCodec.Read;
    match r
    case Basic(codec) => ReadShrinks(codec, input);
    case Advanced(processor) => AdvancedLeaves(processor.codec, input);
  }

  lemma Extends(r: Processor, s: Bytes, t: Bytes, ending: Ending, ending': Ending)
    requires r.Read(Input(s, ending)).result.Ok?
    ensures var p := r.Read(Input(s, ending));
            r.Read(Input(s + t, ending')) == Parsed(p.result, Input(p.rest.bytes + t, ending'))
  {
    hide FrameCodec.Read, AdvancedCodec.Read;
    match r
    case Basic(codec) => ReadExtends(codec, s, t, ending, ending');
    case Advanced(processor) => AdvancedExtends(processor.codec, s, t, ending, ending');
  }

  lemma Wants(r: Processor, s: Bytes, t: Bytes, ending: Ending, ending': Ending)
    requires var p := r.Read(Input(s + t, ending')); p.result.Ok? && |p.rest.bytes| < |t|
    ensures var q := r.Read(Input(s, ending)).result;
            q.Err? && CutShort(s, ending, q.error)
  {
    hide FrameCodec.Read, AdvancedCodec.Read, CutShort;
    match r
    case Basic(codec) => ReadWants(codec, s, t, ending, ending');
    case Advanced(processor) => AdvancedWants(processor.codec, s, t, ending, ending');
  }

  /** A read that fails on the first part of a run of frames, does so since the input ended too early. */
  lemma FailsForWant(w: Processor, r: Processor, frames: seq<Frame>, p: Bytes, ending: Ending)
    requires Understands(r, w) && Pass(w, r, frames)
    requires p <= AllBits(w, frames)
    requires r.Read(Input(p, ending)).result.Err?
    ensures CutShort(p, ending, r.Read(Input(p, ending)).result.error)
  {
    hide Processor.Read, Understands, Bits, CutShort, Flag.In;
    if frames == [] {
      NothingToRead(r, ending);
    } else {
      var first, later := Bits(w, frames[0]), AllBits(w, frames[1..]);
      if |first| <= |p| {
        var q := p[|first|..];
        assert p == first + q;
        ReadPacked(w, r, frames[0], q, ending);
      } else {
        var t := AllBits(w, frames)[|p|..];
        assert p + t == first + later;
        ReadPacked(w, r, frames[0], later, ending);
        Wants(r, p, t, ending, ending);
      }
    }
  }

  lemma NothingToRead(r: Processor, ending: Ending)
    ensures r.Read(Input([], ending)).result.Err? && CutShort([], ending, r.Read(Input([], ending)).result.error)
  {
  }

  /** A read that succeeds on the first part of a run of frames has found the first of them. */
  lemma FirstOfRun(w: Processor, r: Processor, frames: seq<Frame>, p: Bytes, ending: Ending)
    requires Understands(r, w) && Pass(w, r, frames)
    requires p <= AllBits(w, frames)
    requires r.Read(Input(p, ending)).result.Ok?
    ensures frames != []
    ensures var first := r.Read(Input(p, ending));
            && first.result.value.data == frames[0].data
            && (LastFrame.In(first.result.value.flags) <==> LastFrame.In(frames[0].flags))
            && first.rest.ending == ending
            && |first.rest.bytes| < |p|
            && first.rest.bytes <= AllBits(w, frames[1..])
            && (first.rest.bytes == AllBits(w, frames[1..]) ==> p == AllBits(w, frames))
  {
    hide Processor.Read, Understands, Bits, Flag.In;
    var first := r.Read(Input(p, ending));
    Shrinks(r, Input(p, ending));
    var t := AllBits(w, frames)[|p|..];
    assert p + t == AllBits(w, frames);
    Extends(r, p, t, ending, ending);
    var later := AllBits(w, frames[1..]);
    ReadPacked(w, r, frames[0], later, ending);
    assert later == first.rest.bytes + t;
  }
}
