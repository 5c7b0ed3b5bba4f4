/**
 * main of the frame-dump program: open the container, pick its first video
 * stream, set up the codec and the RGB24 frame, then read every packet,
 * decode the video ones and save every 100th picture as "<number>.ppm";
 * finally release everything. Each failing setup step returns at once,
 * releasing what was acquired before it.
 */
module SaveFrame {
  import opened Media
  import opened Ledger

  /** The handles main acquires, in the order it acquires them. */
  datatype Resource =
    | FormatContext   // avformat_open_input ... avformat_close_input
    | CodecContext    // avcodec_alloc_context3 ... avcodec_free_context
    | FrameBuffer     // av_malloc ... av_free
    | FrameRgb        // av_frame_alloc (pframeRGB) ... av_frame_free
    | DecodedFrame    // av_frame_alloc (pframe) ... av_frame_free
    | PacketBuffer    // av_packet_alloc ... av_packet_free
    | ScaleContext    // sws_getContext ... sws_freeContext

  const AllResources: set<Resource> :=
    {FormatContext, CodecContext, FrameBuffer, FrameRgb, DecodedFrame, PacketBuffer, ScaleContext}

  /** Work done for a decoded frame: sws_scale into pframeRGB, then save_frame. */
  datatype Action = Convert(frame: Frame) | Save(fileName: string)

  type Trace = seq<Step<Resource, Effect<Action>>>

  /** The results the libraries give main during setup. */
  datatype Startup = Startup(
    fileExists: bool,          // file_exist
    openInput: int,            // avformat_open_input
    findStreamInfo: int,       // avformat_find_stream_info
    streams: seq<Stream>,      // the container's streams
    codecAllocated: bool,      // avcodec_alloc_context3 returned non-null
    parametersToContext: int,  // avcodec_parameters_to_context
    decoderFound: bool,        // avcodec_find_decoder returned non-null
    codecOpen: int,            // avcodec_open2
    bufferSize: int,           // av_image_get_buffer_size
    fillArrays: int)           // av_image_fill_arrays

  /** Which setup step made main return early. */
  datatype Failure =
    | FileMissing
    | OpenInput(errnum: int)
    | FindStreamInfo(errnum: int)
    | NoVideoStream
    | CodecAlloc
    | ParametersToContext(errnum: int)
    | UnsupportedCodec
    | CodecOpen(errnum: int)
    | BufferSize(errnum: int)
    | FillArrays(errnum: int)

  /** What main returns. */
  function ExitCode(f: Option<Failure>): int {
    match f
    case None => 0
    case Some(FileMissing) => -1
    case Some(OpenInput(e)) => e
    case Some(FindStreamInfo(e)) => e
    case Some(NoVideoStream) => -1
    case Some(CodecAlloc) => -1
    case Some(ParametersToContext(e)) => e
    case Some(UnsupportedCodec) => -1
    case Some(CodecOpen(e)) => e
    case Some(BufferSize(e)) => e
    case Some(FillArrays(e)) => e
  }

  /** The first setup step that fails, checked in main's order; None when setup succeeds. */
  function FirstFailure(o: Startup): (f: Option<Failure>)
    ensures f.None? ==> FirstOfType(o.streams, Video).Some?
    ensures f.None? <==> ExitCode(f) == 0
  {
    if !o.fileExists then Some(FileMissing)
    else if o.openInput != 0 then Some(OpenInput(o.openInput))
    else if o.findStreamInfo < 0 then Some(FindStreamInfo(o.findStreamInfo))
    else if FirstOfType(o.streams, Video).None? then Some(NoVideoStream)
    else if !o.codecAllocated then Some(CodecAlloc)
    else if o.parametersToContext < 0 then Some(ParametersToContext(o.parametersToContext))
    else if !o.decoderFound then Some(UnsupportedCodec)
    else if o.codecOpen != 0 then Some(CodecOpen(o.codecOpen))
    else if o.bufferSize < 0 then Some(BufferSize(o.bufferSize))
    else if o.fillArrays < 0 then Some(FillArrays(o.fillArrays))
    else None
  }

  /** The handles acquired by the time main stops setting up. */
  function AcquiredBy(f: Option<Failure>): set<Resource> {
    match f
    case None => AllResources
    case Some(FileMissing) => {}
    case Some(OpenInput(_)) => {}
    case Some(FindStreamInfo(_)) => {FormatContext}
    case Some(NoVideoStream) => {FormatContext}
    case Some(CodecAlloc) => {FormatContext}
    case Some(FillArrays(_)) => {FormatContext, CodecContext, FrameBuffer, FrameRgb}
    case Some(_) => {FormatContext, CodecContext}
  }

  /** The index of the selected video stream. */
  function VideoIndex(o: Startup): int
    requires FirstOfType(o.streams, Video).Some?
  {
    o.streams[FirstOfType(o.streams, Video).value].index
  }

  /** The handles each step needs to be live. */
  predicate Allowed(e: Effect<Action>, held: set<Resource>) {
    match e
    case Read(_) => {FormatContext, PacketBuffer} <= held
    case Send(_) => {CodecContext, PacketBuffer} <= held
    case Unref => PacketBuffer in held
    case Act(Convert(_)) => {CodecContext, DecodedFrame, ScaleContext, FrameRgb, FrameBuffer} <= held
    case Act(Save(_)) => {FrameRgb, FrameBuffer} <= held
  }

  // ---------------------------------------------------------------------
  // Sampling and naming
  // ---------------------------------------------------------------------

  /** to_string(coded_picture_number) + ".ppm" */
  function FileName(pictureNumber: int): string {
    IntToString(pictureNumber) + ".ppm"
  }

  /** The work main does for one decoded frame. */
  function OnFrame(f: Frame): seq<Action> {
    if f.codedPictureNumber % 100 == 0 then [Convert(f), Save(FileName(f.codedPictureNumber))] else []
  }

  /** The frames whose picture number is a multiple of 100, in order. */
  function Sampled(fs: seq<Frame>): seq<Frame> {
    if fs == [] then []
    else Sampled(fs[..|fs| - 1]) + (if fs[|fs| - 1].codedPictureNumber % 100 == 0 then [fs[|fs| - 1]] else [])
  }

  function FileNames(fs: seq<Frame>): seq<string> {
    if fs == [] then [] else FileNames(fs[..|fs| - 1]) + [FileName(fs[|fs| - 1].codedPictureNumber)]
  }

  /** The names of the files saved, in order. */
  function Saved(xs: seq<Action>): seq<string> {
    if xs == [] then []
    else Saved(xs[..|xs| - 1]) + (if xs[|xs| - 1].Save? then [xs[|xs| - 1].fileName] else [])
  }

  /** The frames converted to RGB, in order. */
  function Converted(xs: seq<Action>): seq<Frame> {
    if xs == [] then []
    else Converted(xs[..|xs| - 1]) + (if xs[|xs| - 1].Convert? then [xs[|xs| - 1].frame] else [])
  }

  /** Frames numbered 0 .. n-1. */
  function Numbered(n: nat): (fs: seq<Frame>)
    ensures |fs| == n && forall i :: 0 <= i < n ==> fs[i] == Frame(i)
  {
    if n == 0 then [] else Numbered(n - 1) + [Frame(n - 1)]
  }

  lemma {:induction false} SavedAppend(xs: seq<Action>, ys: seq<Action>)
    ensures Saved(xs + ys) == Saved(xs) + Saved(ys)
    ensures Converted(xs + ys) == Converted(xs) + Converted(ys)
    decreases |ys|
  {
    if ys == [] {
      assert xs + ys == xs;
    } else {
      var k := |ys| - 1;
      assert (xs + ys)[..|xs + ys| - 1] == xs + ys[..k];
      SavedAppend(xs, ys[..k]);
    }
  }

  /**
   * For any frames the codec yields, main converts and saves exactly those
   * whose picture number is a multiple of 100, in order, each under its own
   * number's file name.
   */
  lemma {:induction false} SavesAreSampled(fs: seq<Frame>)
    ensures Saved(Expand(fs, OnFrame)) == FileNames(Sampled(fs))
    ensures Converted(Expand(fs, OnFrame)) == Sampled(fs)
  {
    if fs != [] {
      var k := |fs| - 1;
      SavesAreSampled(fs[..k]);
      SavedAppend(Expand(fs[..k], OnFrame), OnFrame(fs[k]));
      var extra := if fs[k].codedPictureNumber % 100 == 0 then [fs[k]] else [];
      assert Saved(OnFrame(fs[k])) == FileNames(extra) by {
        if extra != [] {
          assert OnFrame(fs[k]) == [Convert(fs[k])] + [Save(FileName(fs[k].codedPictureNumber))];
          SavedAppend([Convert(fs[k])], [Save(FileName(fs[k].codedPictureNumber))]);
        }
      }
      assert Converted(OnFrame(fs[k])) == extra by {
        if extra != [] {
          SavedAppend([Convert(fs[k])], [Save(FileName(fs[k].codedPictureNumber))]);
        }
      }
      FileNamesAppend(Sampled(fs[..k]), extra);
    }
  }

  lemma {:induction false} FileNamesAppend(fs: seq<Frame>, gs: seq<Frame>)
    ensures FileNames(fs + gs) == FileNames(fs) + FileNames(gs)
    decreases |gs|
  {
    if gs == [] {
      assert fs + gs == fs;
    } else {
      var k := |gs| - 1;
      assert (fs + gs)[..|fs + gs| - 1] == fs + gs[..k];
      FileNamesAppend(fs, gs[..k]);
    }
  }

  lemma SampledSnoc(fs: seq<Frame>, f: Frame)
    ensures Sampled(fs + [f]) == Sampled(fs) + (if f.codedPictureNumber % 100 == 0 then [f] else [])
  {
    assert (fs + [f])[..|fs|] == fs;
  }

  /** Of pictures 0 .. n-1, exactly ceil(n/100) are saved: 0, 100, 200, ... */
  lemma {:induction false} SampledNumbered(n: nat)
    ensures |Sampled(Numbered(n))| == (n + 99) / 100
    ensures forall k :: 0 <= k < |Sampled(Numbered(n))| ==> Sampled(Numbered(n))[k] == Frame(100 * k)
  {
    if n > 0 {
      var m := n - 1;
      SampledNumbered(m);
      var before := Sampled(Numbered(m));
      assert Numbered(n) == Numbered(m) + [Frame(m)];
      SampledSnoc(Numbered(m), Frame(m));
      CeilStep(m);
      var after := Sampled(Numbered(n));
      forall k | 0 <= k < |after| ensures after[k] == Frame(100 * k) {
        if k < |before| {
          assert after[k] == before[k];
        } else {
          assert m % 100 == 0 && k == (m + 99) / 100;
        }
      }
    }
  }

  lemma CeilStep(m: nat)
    ensures m % 100 == 0 ==> (m + 100) / 100 == (m + 99) / 100 + 1 && 100 * ((m + 99) / 100) == m
    ensures m % 100 != 0 ==> (m + 100) / 100 == (m + 99) / 100
  {
  }

  /** Distinct picture numbers are saved under distinct names. */
  lemma FileNameInjective(m: int, n: int)
    ensures FileName(m) == FileName(n) <==> m == n
  {
    if FileName(m) == FileName(n) {
      assert IntToString(m) == FileName(m)[..|FileName(m)| - 4];
      assert IntToString(n) == FileName(n)[..|FileName(n)| - 4];
      IntToStringInjective(m, n);
    }
  }

  // ---------------------------------------------------------------------
  // The program
  // ---------------------------------------------------------------------

  /** The get_video_stream lambda. */
  method GetVideoStream(streams: seq<Stream>) returns (found: Option<nat>)
    ensures found == FirstOfType(streams, Video)
  {
    found := GetStreamByType(streams, Video);
  }

  /**
   * `while (av_read_frame(...) >= 0)`: skip foreign packets, send the rest,
   * go on after a rejected send, drain every frame of an accepted one
   * (saving every 100th picture) and unref each packet.
   */
  method Pump(packets: seq<Packet>, videoIndex: int, decoder: Decoder) returns (effects: seq<Effect<Action>>)
    ensures effects == PumpTrace(packets, videoIndex, decoder, OnFrame)
  {
    effects := [];
    var submitted: seq<Packet> := [];
    var i := 0;
    while i < |packets|
      invariant 0 <= i <= |packets|
      invariant submitted == Matching(packets[..i], videoIndex)
      invariant effects == PumpTrace(packets[..i], videoIndex, decoder, OnFrame)
    {
      assert packets[..i + 1][..i] == packets[..i];
      var step := PumpPacket(packets[i], videoIndex, submitted, decoder);
      if packets[i].streamIndex == videoIndex {
        submitted := submitted + [packets[i]];
      }
      effects := effects + step;
      i := i + 1;
    }
    assert packets[..i] == packets;
  }

  /** One iteration of the pump, after `submitted` went to the codec. */
  method PumpPacket(packet: Packet, videoIndex: int, submitted: seq<Packet>, decoder: Decoder) returns (step: seq<Effect<Action>>)
    ensures step == PacketEffects(packet, videoIndex, submitted, decoder, OnFrame)
  {
    var middle := [];
    if packet.streamIndex == videoIndex {
      var reply := decoder(submitted, packet);
      var drained := [];
      if reply.Accepted? {
        drained := DrainFrames(reply.frames);
      }
      middle := [Send(packet)] + drained;
    }
    step := [Read(packet)] + middle + [Unref];
  }

  /** `while (avcodec_receive_frame(...) == 0)`: the per-frame work for each frame drained. */
  method DrainFrames(frames: seq<Frame>) returns (effects: seq<Effect<Action>>)
    ensures effects == Drain(frames, OnFrame)
  {
    effects := [];
    var j := 0;
    while j < |frames|
      invariant 0 <= j <= |frames|
      invariant effects == Drain(frames[..j], OnFrame)
    {
      var frame := frames[j];
      assert frames[..j + 1][..j] == frames[..j];
      ActsOnFrame(frame);
      if frame.codedPictureNumber % 100 == 0 {
        effects := effects + [Act(Convert(frame)), Act(Save(FileName(frame.codedPictureNumber)))];
      }
      j := j + 1;
    }
    assert frames[..j] == frames;
  }

  lemma ActsOnFrame(f: Frame)
    ensures Acts(OnFrame(f)) == if f.codedPictureNumber % 100 == 0
                                then [Act(Convert(f)), Act(Save(FileName(f.codedPictureNumber)))] else []
  {
    if f.codedPictureNumber % 100 == 0 {
      var xs := OnFrame(f);
      assert xs[..1] == [Convert(f)];
      assert Acts(xs[..1]) == Acts<Action>([]) + [Act(Convert(f))];
    }
  }

  /** The trace main has built once it holds exactly `held`, before the pump. */
  ghost predicate Holding(t: Trace, held: set<Resource>) {
    Guarded(t, Allowed) && Replay(t) == Some(held) && Acquired(t) == held && Effects(t) == []
  }

  /** avformat_open_input, then avcodec_alloc_context3. */
  const OpenSteps: Trace := [Acquire(FormatContext), Acquire(CodecContext)]
  /** av_malloc of the buffer, then av_frame_alloc of pframeRGB. */
  const FrameSteps: Trace := [Acquire(FrameBuffer), Acquire(FrameRgb)]
  /** The cleanup of the av_image_fill_arrays failure. */
  const FrameErrorSteps: Trace := [Release(FrameBuffer), Release(FrameRgb), Release(CodecContext), Release(FormatContext)]
  /** The cleanup of every failure from avcodec_parameters_to_context to av_image_get_buffer_size. */
  const CloseSteps: Trace := [Release(CodecContext), Release(FormatContext)]
  /** av_frame_alloc of pframe, av_packet_alloc, sws_getContext. */
  const ScratchSteps: Trace := [Acquire(DecodedFrame), Acquire(PacketBuffer), Acquire(ScaleContext)]
  /** The frees at the end of main, in source order. */
  const TeardownSteps: Trace :=
    [Release(ScaleContext), Release(PacketBuffer), Release(DecodedFrame), Release(FrameRgb),
     Release(FrameBuffer), Release(CodecContext), Release(FormatContext)]

  /**
   * The steps main takes on each exit: nothing before the input is open, the
   * format context alone up to the codec allocation, the codec and the input
   * for the failures after it, the frame buffer as well for the failed
   * fill, and for a successful setup the pump holding every handle followed
   * by the teardown.
   */
  function RunTrace(o: Startup, packets: seq<Packet>, decoder: Decoder): Trace {
    match FirstFailure(o)
    case None =>
      OpenSteps + FrameSteps + ScratchSteps + Wrap(PumpTrace(packets, VideoIndex(o), decoder, OnFrame)) + TeardownSteps
    case Some(FileMissing) => []
    case Some(OpenInput(_)) => []
    case Some(FindStreamInfo(_)) => [Acquire(FormatContext), Release(FormatContext)]
    case Some(NoVideoStream) => [Acquire(FormatContext), Release(FormatContext)]
    case Some(CodecAlloc) => [Acquire(FormatContext), Release(FormatContext)]
    case Some(FillArrays(_)) => OpenSteps + FrameSteps + FrameErrorSteps
    case Some(_) => OpenSteps + CloseSteps
  }

  /**
   * main: the setup chain with its early returns, the pump, and the teardown.
   * `trace` records every acquisition, release and pump step in order.
   */
  method Run(o: Startup, packets: seq<Packet>, decoder: Decoder) returns (code: int, trace: Trace)
    ensures code == ExitCode(FirstFailure(o))
    ensures trace == RunTrace(o, packets, decoder)
    ensures Replay(trace) == Some({})
    ensures Acquired(trace) == AcquiredBy(FirstFailure(o))
    ensures Guarded(trace, Allowed)
    ensures FirstFailure(o).Some? ==> Effects(trace) == []
    ensures FirstFailure(o).None? ==> Effects(trace) == PumpTrace(packets, VideoIndex(o), decoder, OnFrame)
  {
    trace := [];
    ghost var held: set<Resource> := {};
    if !o.fileExists {
      return -1, trace;
    }
    if o.openInput != 0 {
      return o.openInput, trace;
    }
    trace := AddAcquire(trace, FormatContext, held, Allowed);
    held := held + {FormatContext};
    assert held == {FormatContext};
    code, trace := SelectStream(o, packets, decoder, trace);
  }

  /** From avformat_find_stream_info to avcodec_alloc_context3, holding the format context. */
  method SelectStream(o: Startup, packets: seq<Packet>, decoder: Decoder, t: Trace) returns (code: int, trace: Trace)
    requires o.fileExists && o.openInput == 0
    requires t == [Acquire(FormatContext)] && Holding(t, {FormatContext})
    ensures code == ExitCode(FirstFailure(o))
    ensures trace == RunTrace(o, packets, decoder)
    ensures Replay(trace) == Some({})
    ensures Acquired(trace) == AcquiredBy(FirstFailure(o))
    ensures Guarded(trace, Allowed)
    ensures FirstFailure(o).Some? ==> Effects(trace) == []
    ensures FirstFailure(o).None? ==> Effects(trace) == PumpTrace(packets, VideoIndex(o), decoder, OnFrame)
  {
    trace := t;
    ghost var held: set<Resource> := {FormatContext};
    if o.findStreamInfo < 0 {
      trace := AddRelease(trace, FormatContext, held, Allowed);
      return o.findStreamInfo, trace;
    }
    var video := GetVideoStream(o.streams);
    if video.None? {
      trace := AddRelease(trace, FormatContext, held, Allowed);
      return -1, trace;
    }
    if !o.codecAllocated {
      trace := AddRelease(trace, FormatContext, held, Allowed);
      return -1, trace;
    }
    trace := AddAcquire(trace, CodecContext, held, Allowed);
    held := held + {CodecContext};
    assert held == {FormatContext, CodecContext};
    code, trace := Configure(o, o.streams[video.value].index, packets, decoder, trace);
  }

  /** From avcodec_parameters_to_context to av_image_fill_arrays, holding the format and codec contexts. */
  method Configure(o: Startup, videoIndex: int, packets: seq<Packet>, decoder: Decoder, t: Trace) returns (code: int, trace: Trace)
    requires o.fileExists && o.openInput == 0 && o.findStreamInfo >= 0
    requires FirstOfType(o.streams, Video).Some? && o.codecAllocated && videoIndex == VideoIndex(o)
    requires t == OpenSteps && Holding(t, {FormatContext, CodecContext})
    ensures code == ExitCode(FirstFailure(o))
    ensures trace == RunTrace(o, packets, decoder)
    ensures Replay(trace) == Some({})
    ensures Acquired(trace) == AcquiredBy(FirstFailure(o))
    ensures Guarded(trace, Allowed)
    ensures FirstFailure(o).Some? ==> Effects(trace) == []
    ensures FirstFailure(o).None? ==> Effects(trace) == PumpTrace(packets, VideoIndex(o), decoder, OnFrame)
  {
    trace := t;
    if o.parametersToContext < 0 {
      trace := CloseCodec(trace);
      return o.parametersToContext, trace;
    }
    if !o.decoderFound {
      trace := CloseCodec(trace);
      return -1, trace;
    }
    if o.codecOpen != 0 {
      trace := CloseCodec(trace);
      return o.codecOpen, trace;
    }
    if o.bufferSize < 0 {
      trace := CloseCodec(trace);
      return o.bufferSize, trace;
    }
    code, trace := FillFrame(o, videoIndex, packets, decoder, trace);
  }

  /**
   * av_malloc of the RGB24 buffer, av_frame_alloc of its frame and
   * av_image_fill_arrays; on failure both go back before the codec and the input.
   */
  method FillFrame(o: Startup, videoIndex: int, packets: seq<Packet>, decoder: Decoder, t: Trace) returns (code: int, trace: Trace)
    requires FirstFailure(o) == None || FirstFailure(o) == Some(FillArrays(o.fillArrays))
    requires FirstOfType(o.streams, Video).Some? && videoIndex == VideoIndex(o)
    requires Holding(t, {FormatContext, CodecContext})
    ensures code == ExitCode(FirstFailure(o))
    ensures o.fillArrays < 0 ==> trace == t + FrameSteps + FrameErrorSteps
    ensures o.fillArrays >= 0 ==>
              trace == t + FrameSteps + ScratchSteps + Wrap(PumpTrace(packets, videoIndex, decoder, OnFrame)) + TeardownSteps
    ensures Replay(trace) == Some({})
    ensures Acquired(trace) == AcquiredBy(FirstFailure(o))
    ensures Guarded(trace, Allowed)
    ensures FirstFailure(o).Some? ==> Effects(trace) == []
    ensures FirstFailure(o).None? ==> Effects(trace) == PumpTrace(packets, VideoIndex(o), decoder, OnFrame)
  {
    trace := AllocateFrame(t);
    if o.fillArrays < 0 {
      trace := FreeFrameOnError(trace);
      return o.fillArrays, trace;
    }
    code, trace := Decode(packets, videoIndex, decoder, trace);
  }

  /** av_malloc of the buffer, then av_frame_alloc of pframeRGB. */
  method AllocateFrame(t: Trace) returns (trace: Trace)
    requires Holding(t, {FormatContext, CodecContext})
    ensures trace == t + FrameSteps
    ensures Holding(trace, {FormatContext, CodecContext, FrameBuffer, FrameRgb})
  {
    ghost var held: set<Resource> := {FormatContext, CodecContext};
    trace := AddAcquire(t, FrameBuffer, held, Allowed);
    held := held + {FrameBuffer};
    trace := AddAcquire(trace, FrameRgb, held, Allowed);
    held := held + {FrameRgb};
    assert held == {FormatContext, CodecContext, FrameBuffer, FrameRgb};
  }

  /** The av_image_fill_arrays failure: av_free, av_frame_free(pframeRGB), then the codec and the input. */
  method FreeFrameOnError(t: Trace) returns (trace: Trace)
    requires Guarded(t, Allowed) && Replay(t) == Some({FormatContext, CodecContext, FrameBuffer, FrameRgb})
    ensures trace == t + FrameErrorSteps
    ensures Guarded(trace, Allowed) && Replay(trace) == Some({})
    ensures Acquired(trace) == Acquired(t) && Effects(trace) == Effects(t)
  {
    ghost var held: set<Resource> := {FormatContext, CodecContext, FrameBuffer, FrameRgb};
    trace := AddRelease(t, FrameBuffer, held, Allowed);
    held := held - {FrameBuffer};
    trace := AddRelease(trace, FrameRgb, held, Allowed);
    held := held - {FrameRgb};
    assert held == {FormatContext, CodecContext};
    trace := CloseCodec(trace);
  }

  /** avcodec_free_context, then avformat_close_input: the cleanup of every later failure. */
  method CloseCodec(t: Trace) returns (trace: Trace)
    requires Guarded(t, Allowed) && Replay(t) == Some({FormatContext, CodecContext})
    ensures trace == t + CloseSteps
    ensures Guarded(trace, Allowed) && Replay(trace) == Some({})
    ensures Acquired(trace) == Acquired(t) && Effects(trace) == Effects(t)
  {
    ghost var held: set<Resource> := {FormatContext, CodecContext};
    trace := AddRelease(t, CodecContext, held, Allowed);
    held := held - {CodecContext};
    trace := AddRelease(trace, FormatContext, held, Allowed);
    held := held - {FormatContext};
    assert held == {};
  }

  /** From the decoded frame's allocation to the end of main: the pump, then the teardown. */
  method Decode(packets: seq<Packet>, videoIndex: int, decoder: Decoder, t: Trace) returns (code: int, trace: Trace)
    requires Holding(t, {FormatContext, CodecContext, FrameBuffer, FrameRgb})
    ensures code == 0
    ensures trace == t + ScratchSteps + Wrap(PumpTrace(packets, videoIndex, decoder, OnFrame)) + TeardownSteps
    ensures Replay(trace) == Some({})
    ensures Acquired(trace) == AllResources
    ensures Guarded(trace, Allowed)
    ensures Effects(trace) == PumpTrace(packets, videoIndex, decoder, OnFrame)
  {
    trace := AllocateScratch(t);
    var effects := Pump(packets, videoIndex, decoder);
    DoAll(trace, effects, AllResources, Allowed);
    trace := trace + Wrap(effects);
    trace := Teardown(trace);
    code := 0;
  }

  /** av_frame_alloc of pframe, av_packet_alloc, sws_getContext. */
  method AllocateScratch(t: Trace) returns (trace: Trace)
    requires Holding(t, {FormatContext, CodecContext, FrameBuffer, FrameRgb})
    ensures trace == t + ScratchSteps
    ensures Holding(trace, AllResources)
  {
    ghost var held: set<Resource> := {FormatContext, CodecContext, FrameBuffer, FrameRgb};
    trace := AddAcquire(t, DecodedFrame, held, Allowed);
    held := held + {DecodedFrame};
    trace := AddAcquire(trace, PacketBuffer, held, Allowed);
    held := held + {PacketBuffer};
    trace := AddAcquire(trace, ScaleContext, held, Allowed);
    held := held + {ScaleContext};
    assert held == AllResources;
  }

  /** The end of main: sws_freeContext, av_packet_free, av_frame_free twice, av_free, then the codec and the input. */
  method Teardown(t: Trace) returns (trace: Trace)
    requires Guarded(t, Allowed) && Replay(t) == Some(AllResources)
    ensures trace == t + TeardownSteps
    ensures Guarded(trace, Allowed) && Replay(trace) == Some({})
    ensures Acquired(trace) == Acquired(t) && Effects(trace) == Effects(t)
  {
    ghost var held: set<Resource> := AllResources;
    trace := AddRelease(t, ScaleContext, held, Allowed);
    held := held - {ScaleContext};
    trace := AddRelease(trace, PacketBuffer, held, Allowed);
    held := held - {PacketBuffer};
    trace := AddRelease(trace, DecodedFrame, held, Allowed);
    held := held - {DecodedFrame};
    assert held == {FormatContext, CodecContext, FrameBuffer, FrameRgb};
    trace := FreeFrame(trace);
  }

  /** av_frame_free(pframeRGB), av_free, then the codec and the input. */
  method FreeFrame(t: Trace) returns (trace: Trace)
    requires Guarded(t, Allowed) && Replay(t) == Some({FormatContext, CodecContext, FrameBuffer, FrameRgb})
    ensures trace == t + [Release(FrameRgb), Release(FrameBuffer), Release(CodecContext), Release(FormatContext)]
    ensures Guarded(trace, Allowed) && Replay(trace) == Some({})
    ensures Acquired(trace) == Acquired(t) && Effects(trace) == Effects(t)
  {
    ghost var held: set<Resource> := {FormatContext, CodecContext, FrameBuffer, FrameRgb};
    trace := AddRelease(t, FrameRgb, held, Allowed);
    held := held - {FrameRgb};
    trace := AddRelease(trace, FrameBuffer, held, Allowed);
    held := held - {FrameBuffer};
    assert held == {FormatContext, CodecContext};
    trace := CloseCodec(trace);
  }
}
