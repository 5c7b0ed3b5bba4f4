/**
 * main of the player: the same setup chain as the frame-dump program up to
 * a YUV420P frame, then SDL_Init, the decoder's scratch objects, the audio
 * and video threads, and a pump that posts every decoded frame to the video
 * thread as a PLAY_VIDEO_EVENT and sleeps `delay` milliseconds after it. At
 * the end of the stream it stops and joins the threads in a fixed order and
 * frees everything.
 */
module PlayVideo {
  import opened Media
  import opened Ledger
  import opened Workers

  datatype Resource =
    | FormatContext   // avformat_open_input ... avformat_close_input
    | CodecContext    // avcodec_alloc_context3 ... avcodec_free_context
    | FrameBuffer     // av_malloc ... av_free
    | FrameYuv        // av_frame_alloc (pframeYUV) ... av_frame_free
    | Sdl             // SDL_Init ... SDL_Quit
    | DecodedFrame    // av_frame_alloc (pframe) ... av_frame_free
    | PacketBuffer    // av_packet_alloc ... av_packet_free
    | ScaleContext    // sws_getContext ... sws_freeContext
    | AudioThread     // SDL_CreateThread(play_audio) ... SDL_WaitThread
    | VideoThread     // SDL_CreateThread(play_video) ... SDL_WaitThread

  const AllResources: set<Resource> :=
    {FormatContext, CodecContext, FrameBuffer, FrameYuv, Sdl, DecodedFrame, PacketBuffer, ScaleContext, AudioThread, VideoThread}

  /** Work main does besides the pump's reads, sends and unrefs. */
  datatype Action =
    | Convert(frame: Frame)  // sws_scale of the decoded frame into pframeYUV
    | Push(event: Event)     // SDL_PushEvent
    | Delay(ms: int)         // SDL_Delay

  type Trace = seq<Step<Resource, Effect<Action>>>

  /** The user event that hands the standing YUV frame to the video thread. */
  const PlayEvent: Event := Event(SDL_USEREVENT, PLAY_VIDEO_EVENT, YuvFrame)
  const QuitVideo: Event := Event(SDL_USEREVENT, QUIT_VIDEO_EVENT, Null)
  const QuitAudio: Event := Event(SDL_USEREVENT, QUIT_AUDIO_EVENT, Null)

  /** The results the libraries give main during setup; `delay` is the frame interval derived from the stream's frame rate. */
  datatype Startup = Startup(
    fileExists: bool,
    openInput: int,
    findStreamInfo: int,
    streams: seq<Stream>,
    codecAllocated: bool,
    parametersToContext: int,
    decoderFound: bool,
    codecOpen: int,
    bufferSize: int,
    fillArrays: int,
    sdlInit: int,
    delay: int)

  datatype Failure =
    | FileMissing
    | OpenInput(errnum: int)
    | FindStreamInfo(errnum: int)
    | NoVideoStream
    | CodecAlloc
    | ParametersToContext(errnum: int)
    | UnsupportedCodec
    | CodecOpen(errnum: int)
    | BufferSize(errnum: int)
    | FillArrays(errnum: int)
    | SdlInit(errnum: int)

  function ExitCode(f: Option<Failure>): int {
    match f
    case None => 0
    case Some(FileMissing) => -1
    case Some(OpenInput(e)) => e
    case Some(FindStreamInfo(e)) => e
    case Some(NoVideoStream) => -1
    case Some(CodecAlloc) => -1
    case Some(ParametersToContext(e)) => e
    case Some(UnsupportedCodec) => -1
    case Some(CodecOpen(e)) => e
    case Some(BufferSize(e)) => e
    case Some(FillArrays(e)) => e
    case Some(SdlInit(e)) => e
  }

  /** The first setup step that fails, in main's order; None when setup succeeds. */
  function FirstFailure(o: Startup): (f: Option<Failure>)
    ensures f.None? ==> FirstOfType(o.streams, Video).Some?
    ensures f.None? <==> ExitCode(f) == 0
  {
    if !o.fileExists then Some(FileMissing)
    else if o.openInput != 0 then Some(OpenInput(o.openInput))
    else if o.findStreamInfo < 0 then Some(FindStreamInfo(o.findStreamInfo))
    else if FirstOfType(o.streams, Video).None? then Some(NoVideoStream)
    else if !o.codecAllocated then Some(CodecAlloc)
    else if o.parametersToContext < 0 then Some(ParametersToContext(o.parametersToContext))
    else if !o.decoderFound then Some(UnsupportedCodec)
    else if o.codecOpen != 0 then Some(CodecOpen(o.codecOpen))
    else if o.bufferSize < 0 then Some(BufferSize(o.bufferSize))
    else if o.fillArrays < 0 then Some(FillArrays(o.fillArrays))
    else if o.sdlInit != 0 then Some(SdlInit(o.sdlInit))
    else None
  }

  /** The handles acquired by the time main stops setting up. */
  function AcquiredBy(f: Option<Failure>): set<Resource> {
    match f
    case None => AllResources
    case Some(FileMissing) => {}
    case Some(OpenInput(_)) => {}
    case Some(FindStreamInfo(_)) => {FormatContext}
    case Some(NoVideoStream) => {FormatContext}
    case Some(CodecAlloc) => {FormatContext}
    case Some(FillArrays(_)) => {FormatContext, CodecContext, FrameBuffer, FrameYuv}
    case Some(SdlInit(_)) => {FormatContext, CodecContext, FrameBuffer, FrameYuv}
    case Some(_) => {FormatContext, CodecContext}
  }

  function VideoIndex(o: Startup): int
    requires FirstOfType(o.streams, Video).Some?
  {
    o.streams[FirstOfType(o.streams, Video).value].index
  }

  /**
   * The handles each step needs to be live. A PLAY_VIDEO_EVENT points into
   * pframeYUV; QUIT_VIDEO needs the video thread running and QUIT_AUDIO may
   * only be posted once the video thread has been joined, so the video
   * thread cannot take it.
   */
  predicate Allowed(e: Effect<Action>, held: set<Resource>) {
    match e
    case Read(_) => {FormatContext, PacketBuffer} <= held
    case Send(_) => {CodecContext, PacketBuffer} <= held
    case Unref => PacketBuffer in held
    case Act(Convert(_)) => {CodecContext, DecodedFrame, ScaleContext, FrameYuv, FrameBuffer} <= held
    case Act(Push(ev)) =>
      Sdl in held
      && (ev == PlayEvent ==> {FrameYuv, FrameBuffer, VideoThread} <= held)
      && (ev == QuitVideo ==> VideoThread in held)
      && (ev == QuitAudio ==> AudioThread in held && VideoThread !in held)
    case Act(Delay(_)) => Sdl in held
  }

  /** The work main does for each decoded frame. */
  function OnFrame(delay: int): Frame -> seq<Action> {
    f => [Convert(f), Push(PlayEvent), Delay(delay)]
  }

  // ---------------------------------------------------------------------
  // Per-frame work
  // ---------------------------------------------------------------------

  /** The events main posts, in order. */
  function Pushed(xs: seq<Action>): seq<Event> {
    if xs == [] then []
    else Pushed(xs[..|xs| - 1]) + (if xs[|xs| - 1].Push? then [xs[|xs| - 1].event] else [])
  }

  /** The frames converted into pframeYUV, in order. */
  function Converted(xs: seq<Action>): seq<Frame> {
    if xs == [] then []
    else Converted(xs[..|xs| - 1]) + (if xs[|xs| - 1].Convert? then [xs[|xs| - 1].frame] else [])
  }

  lemma {:induction false} ObservedAppend(xs: seq<Action>, ys: seq<Action>)
    ensures Pushed(xs + ys) == Pushed(xs) + Pushed(ys)
    ensures Converted(xs + ys) == Converted(xs) + Converted(ys)
    decreases |ys|
  {
    if ys == [] {
      assert xs + ys == xs;
    } else {
      var k := |ys| - 1;
      assert (xs + ys)[..|xs + ys| - 1] == xs + ys[..k];
      ObservedAppend(xs, ys[..k]);
    }
  }

  lemma ObservedOne(x: Action)
    ensures Pushed([x]) == (if x.Push? then [x.event] else [])
    ensures Converted([x]) == (if x.Convert? then [x.frame] else [])
  {
    assert [x][..0] == [];
  }

  /**
   * For any frames the codec yields, main converts each of them once, in
   * order, and posts exactly one PLAY_VIDEO_EVENT per frame, every one
   * carrying the same standing pframeYUV.
   */
  lemma {:induction false} OnePushPerFrame(fs: seq<Frame>, delay: int)
    ensures Converted(Expand(fs, OnFrame(delay))) == fs
    ensures Pushed(Expand(fs, OnFrame(delay))) == seq(|fs|, _ => PlayEvent)
  {
    if fs != [] {
      var k := |fs| - 1;
      OnePushPerFrame(fs[..k], delay);
      ObservedAppend(Expand(fs[..k], OnFrame(delay)), OnFrame(delay)(fs[k]));
      ObservedFrame(fs[k], delay);
      assert fs == fs[..k] + [fs[k]];
      assert seq(|fs|, _ => PlayEvent) == seq(k, _ => PlayEvent) + [PlayEvent];
    }
  }

  lemma ObservedFrame(f: Frame, delay: int)
    ensures Converted(OnFrame(delay)(f)) == [f] && Pushed(OnFrame(delay)(f)) == [PlayEvent]
  {
    var xs := OnFrame(delay)(f);
    assert xs == [xs[0]] + [xs[1]] + [xs[2]];
    ObservedAppend([xs[0]] + [xs[1]], [xs[2]]);
    ObservedAppend([xs[0]], [xs[1]]);
    ObservedOne(xs[0]);
    ObservedOne(xs[1]);
    ObservedOne(xs[2]);
  }

  /** Main's per-frame work only converts, posts PLAY_VIDEO_EVENT and sleeps. */
  lemma {:induction false} PerFrameWork(fs: seq<Frame>, delay: int, x: Action)
    requires x in Expand(fs, OnFrame(delay))
    ensures x.Convert? || x == Push(PlayEvent) || x == Delay(delay)
  {
    var k := |fs| - 1;
    if x !in OnFrame(delay)(fs[k]) {
      PerFrameWork(fs[..k], delay, x);
    }
  }

  /** Everything the pump does is allowed while main holds every handle. */
  lemma PumpAllowed(packets: seq<Packet>, videoIndex: int, decoder: Decoder, delay: int)
    ensures forall i :: 0 <= i < |PumpTrace(packets, videoIndex, decoder, OnFrame(delay))| ==>
              Allowed(PumpTrace(packets, videoIndex, decoder, OnFrame(delay))[i], AllResources)
  {
    var effects := PumpTrace(packets, videoIndex, decoder, OnFrame(delay));
    forall i | 0 <= i < |effects| ensures Allowed(effects[i], AllResources) {
      if effects[i].Act? {
        PumpTraceActsFromFrames(packets, videoIndex, decoder, OnFrame(delay), i);
        PumpActionsPerFrame(packets, videoIndex, decoder, OnFrame(delay));
        PerFrameWork(Received(packets, videoIndex, decoder), delay, effects[i].action);
      }
    }
  }

  /** After every push of a frame, the next thing main does is sleep `delay` milliseconds. */
  lemma {:induction false} DelayAfterPush(fs: seq<Frame>, delay: int, i: nat)
    requires i < |Expand(fs, OnFrame(delay))| && Expand(fs, OnFrame(delay))[i].Push?
    ensures i + 1 < |Expand(fs, OnFrame(delay))| && Expand(fs, OnFrame(delay))[i + 1] == Delay(delay)
  {
    var k := |fs| - 1;
    var before := Expand(fs[..k], OnFrame(delay));
    if i >= |before| {
      assert Expand(fs, OnFrame(delay))[i] == OnFrame(delay)(fs[k])[i - |before|];
    } else {
      DelayAfterPush(fs[..k], delay, i);
    }
  }

  // ---------------------------------------------------------------------
  // The program
  // ---------------------------------------------------------------------

  /** The pump: like the frame-dump program's, but every frame is converted, posted and waited for. */
  method Pump(packets: seq<Packet>, videoIndex: int, decoder: Decoder, delay: int) returns (effects: seq<Effect<Action>>)
    ensures effects == PumpTrace(packets, videoIndex, decoder, OnFrame(delay))
  {
    effects := [];
    var submitted: seq<Packet> := [];
    var i := 0;
    while i < |packets|
      invariant 0 <= i <= |packets|
      invariant submitted == Matching(packets[..i], videoIndex)
      invariant effects == PumpTrace(packets[..i], videoIndex, decoder, OnFrame(delay))
    {
      assert packets[..i + 1][..i] == packets[..i];
      var step := PumpPacket(packets[i], videoIndex, submitted, decoder, delay);
      if packets[i].streamIndex == videoIndex {
        submitted := submitted + [packets[i]];
      }
      effects := effects + step;
      i := i + 1;
    }
    assert packets[..i] == packets;
  }

  method PumpPacket(packet: Packet, videoIndex: int, submitted: seq<Packet>, decoder: Decoder, delay: int)
    returns (step: seq<Effect<Action>>)
    ensures step == PacketEffects(packet, videoIndex, submitted, decoder, OnFrame(delay))
  {
    var middle := [];
    if packet.streamIndex == videoIndex {
      var reply := decoder(submitted, packet);
      var drained := [];
      if reply.Accepted? {
        drained := DrainFrames(reply.frames, delay);
      }
      middle := [Send(packet)] + drained;
    }
    step := [Read(packet)] + middle + [Unref];
  }

  /** `while (avcodec_receive_frame(...) == 0)`: sws_scale, push PLAY_VIDEO_EVENT, SDL_Delay. */
  method DrainFrames(frames: seq<Frame>, delay: int) returns (effects: seq<Effect<Action>>)
    ensures effects == Drain(frames, OnFrame(delay))
  {
    effects := [];
    var j := 0;
    while j < |frames|
      invariant 0 <= j <= |frames|
      invariant effects == Drain(frames[..j], OnFrame(delay))
    {
      var frame := frames[j];
      assert frames[..j + 1][..j] == frames[..j];
      ActsPerFrame(frame, delay);
      effects := effects + [Act(Convert(frame)), Act(Push(PlayEvent)), Act(Delay(delay))];
      j := j + 1;
    }
    assert frames[..j] == frames;
  }

  lemma ActsPerFrame(f: Frame, delay: int)
    ensures Acts(OnFrame(delay)(f)) == [Act(Convert(f)), Act(Push(PlayEvent)), Act(Delay(delay))]
  {
    var xs := OnFrame(delay)(f);
    assert Acts(xs[..1]) == [Act(xs[0])] by {
      assert xs[..1][..0] == [];
    }
    assert Acts(xs[..2]) == [Act(xs[0]), Act(xs[1])] by {
      assert xs[..2][..1] == xs[..1];
    }
    assert Acts(xs) == Acts(xs[..2]) + [Act(xs[2])];
  }

  /** The trace main has built once it holds exactly `held`, before the pump. */
  ghost predicate Holding(t: Trace, held: set<Resource>) {
    Guarded(t, Allowed) && Replay(t) == Some(held) && Acquired(t) == held && Effects(t) == []
  }

  /** avformat_open_input, then avcodec_alloc_context3. */
  const OpenSteps: Trace := [Acquire(FormatContext), Acquire(CodecContext)]
  /** av_malloc of the buffer, then av_frame_alloc of pframeYUV. */
  const FrameSteps: Trace := [Acquire(FrameBuffer), Acquire(FrameYuv)]
  /** The cleanup of the av_image_fill_arrays and SDL_Init failures. */
  const FrameErrorSteps: Trace := [Release(FrameBuffer), Release(FrameYuv), Release(CodecContext), Release(FormatContext)]
  /** The cleanup of every failure from avcodec_parameters_to_context to av_image_get_buffer_size. */
  const CloseSteps: Trace := [Release(CodecContext), Release(FormatContext)]
  /** av_frame_alloc of pframe, av_packet_alloc, sws_getContext. */
  const ScratchSteps: Trace := [Acquire(DecodedFrame), Acquire(PacketBuffer), Acquire(ScaleContext)]
  /** SDL_CreateThread of play_audio, then of play_video. */
  const ThreadSteps: Trace := [Acquire(AudioThread), Acquire(VideoThread)]

  /** The end of main after the pump, from the QUIT_VIDEO push to avformat_close_input. */
  const ShutdownSteps: Trace := [
    Do(Act(Push(QuitVideo))), Release(VideoThread),
    Do(Act(Push(QuitAudio))), Release(AudioThread),
    Release(Sdl),
    Release(ScaleContext), Release(PacketBuffer), Release(DecodedFrame),
    Release(FrameYuv), Release(FrameBuffer), Release(CodecContext), Release(FormatContext)]

  /**
   * The steps main takes on each exit: nothing before the input is open, the
   * format context alone up to the codec allocation, the codec and the input
   * for the failures after it, the frame buffer as well for the failed fill
   * or SDL_Init, and for a successful setup SDL, the scratch objects and the
   * threads, the pump holding every handle, and the shutdown.
   */
  function RunTrace(o: Startup, packets: seq<Packet>, decoder: Decoder): Trace {
    match FirstFailure(o)
    case None =>
      OpenSteps + FrameSteps + [Acquire(Sdl)] + ScratchSteps + ThreadSteps
      + Wrap(PumpTrace(packets, VideoIndex(o), decoder, OnFrame(o.delay))) + ShutdownSteps
    case Some(FileMissing) => []
    case Some(OpenInput(_)) => []
    case Some(FindStreamInfo(_)) => [Acquire(FormatContext), Release(FormatContext)]
    case Some(NoVideoStream) => [Acquire(FormatContext), Release(FormatContext)]
    case Some(CodecAlloc) => [Acquire(FormatContext), Release(FormatContext)]
    case Some(FillArrays(_)) => OpenSteps + FrameSteps + FrameErrorSteps
    case Some(SdlInit(_)) => OpenSteps + FrameSteps + FrameErrorSteps
    case Some(_) => OpenSteps + CloseSteps
  }

  /**
   * main: every setup failure returns its code having released exactly what
   * it acquired; a normal run pumps the whole container, then shuts down in
   * the fixed order and returns 0.
   */
  method Run(o: Startup, packets: seq<Packet>, decoder: Decoder) returns (code: int, trace: Trace)
    ensures code == ExitCode(FirstFailure(o))
    ensures trace == RunTrace(o, packets, decoder)
    ensures Replay(trace) == Some({})
    ensures Acquired(trace) == AcquiredBy(FirstFailure(o))
    ensures Guarded(trace, Allowed)
    ensures FirstFailure(o).Some? ==> Effects(trace) == []
    ensures FirstFailure(o).None? ==>
              Effects(trace) == PumpTrace(packets, VideoIndex(o), decoder, OnFrame(o.delay)) + [Act(Push(QuitVideo)), Act(Push(QuitAudio))]
              && |trace| >= |ShutdownSteps| && trace[|trace| - |ShutdownSteps|..] == ShutdownSteps
  {
    trace := [];
    ghost var held: set<Resource> := {};
    if !o.fileExists {
      return -1, trace;
    }
    if o.openInput != 0 {
      return o.openInput, trace;
    }
    trace := AddAcquire(trace, FormatContext, held, Allowed);
    held := held + {FormatContext};
    assert held == {FormatContext};
    code, trace := SelectStream(o, packets, decoder, trace);
  }

  /** From avformat_find_stream_info to avcodec_alloc_context3, holding the format context. */
  method SelectStream(o: Startup, packets: seq<Packet>, decoder: Decoder, t: Trace) returns (code: int, trace: Trace)
    requires o.fileExists && o.openInput == 0
    requires t == [Acquire(FormatContext)] && Holding(t, {FormatContext})
    ensures code == ExitCode(FirstFailure(o))
    ensures trace == RunTrace(o, packets, decoder)
    ensures Replay(trace) == Some({})
    ensures Acquired(trace) == AcquiredBy(FirstFailure(o))
    ensures Guarded(trace, Allowed)
    ensures FirstFailure(o).Some? ==> Effects(trace) == []
    ensures FirstFailure(o).None? ==>
              Effects(trace) == PumpTrace(packets, VideoIndex(o), decoder, OnFrame(o.delay)) + [Act(Push(QuitVideo)), Act(Push(QuitAudio))]
              && |trace| >= |ShutdownSteps| && trace[|trace| - |ShutdownSteps|..] == ShutdownSteps
  {
    trace := t;
    ghost var held: set<Resource> := {FormatContext};
    if o.findStreamInfo < 0 {
      trace := AddRelease(trace, FormatContext, held, Allowed);
      return o.findStreamInfo, trace;
    }
    var video := GetStreamByType(o.streams, Video);
    if video.None? {
      trace := AddRelease(trace, FormatContext, held, Allowed);
      return -1, trace;
    }
    if !o.codecAllocated {
      trace := AddRelease(trace, FormatContext, held, Allowed);
      return -1, trace;
    }
    trace := AddAcquire(trace, CodecContext, held, Allowed);
    held := held + {CodecContext};
    assert held == {FormatContext, CodecContext};
    code, trace := Configure(o, o.streams[video.value].index, packets, decoder, trace);
  }

  /** From avcodec_parameters_to_context to av_image_get_buffer_size. */
  method Configure(o: Startup, videoIndex: int, packets: seq<Packet>, decoder: Decoder, t: Trace) returns (code: int, trace: Trace)
    requires o.fileExists && o.openInput == 0 && o.findStreamInfo >= 0
    requires FirstOfType(o.streams, Video).Some? && o.codecAllocated && videoIndex == VideoIndex(o)
    requires t == OpenSteps && Holding(t, {FormatContext, CodecContext})
    ensures code == ExitCode(FirstFailure(o))
    ensures trace == RunTrace(o, packets, decoder)
    ensures Replay(trace) == Some({})
    ensures Acquired(trace) == AcquiredBy(FirstFailure(o))
    ensures Guarded(trace, Allowed)
    ensures FirstFailure(o).Some? ==> Effects(trace) == []
    ensures FirstFailure(o).None? ==>
              Effects(trace) == PumpTrace(packets, VideoIndex(o), decoder, OnFrame(o.delay)) + [Act(Push(QuitVideo)), Act(Push(QuitAudio))]
              && |trace| >= |ShutdownSteps| && trace[|trace| - |ShutdownSteps|..] == ShutdownSteps
  {
    trace := t;
    if o.parametersToContext < 0 {
      trace := CloseCodec(trace);
      return o.parametersToContext, trace;
    }
    if !o.decoderFound {
      trace := CloseCodec(trace);
      return -1, trace;
    }
    if o.codecOpen != 0 {
      trace := CloseCodec(trace);
      return o.codecOpen, trace;
    }
    if o.bufferSize < 0 {
      trace := CloseCodec(trace);
      return o.bufferSize, trace;
    }
    code, trace := FillFrame(o, videoIndex, packets, decoder, trace);
  }

  /** avcodec_free_context, then avformat_close_input. */
  method CloseCodec(t: Trace) returns (trace: Trace)
    requires Guarded(t, Allowed) && Replay(t) == Some({FormatContext, CodecContext})
    ensures trace == t + CloseSteps
    ensures Guarded(trace, Allowed) && Replay(trace) == Some({})
    ensures Acquired(trace) == Acquired(t) && Effects(trace) == Effects(t)
  {
    ghost var held: set<Resource> := {FormatContext, CodecContext};
    trace := AddRelease(t, CodecContext, held, Allowed);
    held := held - {CodecContext};
    trace := AddRelease(trace, FormatContext, held, Allowed);
    held := held - {FormatContext};
    assert held == {};
  }

  /**
   * av_malloc, av_frame_alloc of pframeYUV, av_image_fill_arrays and
   * SDL_Init; either failure frees the buffer and the frame before the
   * codec and the input.
   */
  method FillFrame(o: Startup, videoIndex: int, packets: seq<Packet>, decoder: Decoder, t: Trace) returns (code: int, trace: Trace)
    requires FirstFailure(o) == None || FirstFailure(o) == Some(FillArrays(o.fillArrays)) || FirstFailure(o) == Some(SdlInit(o.sdlInit))
    requires FirstOfType(o.streams, Video).Some? && videoIndex == VideoIndex(o)
    requires Holding(t, {FormatContext, CodecContext})
    ensures code == ExitCode(FirstFailure(o))
    ensures FirstFailure(o).Some? ==> trace == t + FrameSteps + FrameErrorSteps
    ensures FirstFailure(o).None? ==>
              trace == t + FrameSteps + [Acquire(Sdl)] + ScratchSteps + ThreadSteps
                       + Wrap(PumpTrace(packets, videoIndex, decoder, OnFrame(o.delay))) + ShutdownSteps
    ensures Replay(trace) == Some({})
    ensures Acquired(trace) == AcquiredBy(FirstFailure(o))
    ensures Guarded(trace, Allowed)
    ensures FirstFailure(o).Some? ==> Effects(trace) == []
    ensures FirstFailure(o).None? ==>
              Effects(trace) == PumpTrace(packets, VideoIndex(o), decoder, OnFrame(o.delay)) + [Act(Push(QuitVideo)), Act(Push(QuitAudio))]
              && |trace| >= |ShutdownSteps| && trace[|trace| - |ShutdownSteps|..] == ShutdownSteps
  {
    trace := AllocateFrame(t);
    if o.fillArrays < 0 || o.sdlInit != 0 {
      assert AcquiredBy(FirstFailure(o)) == {FormatContext, CodecContext, FrameBuffer, FrameYuv};
      trace := FreeFrameOnError(trace);
      if o.fillArrays < 0 {
        return o.fillArrays, trace;
      }
      return o.sdlInit, trace;
    }
    assert FirstFailure(o) == None;
    trace := InitSdl(trace);
    code, trace := Play(packets, videoIndex, decoder, o.delay, trace);
  }

  /** av_malloc of the buffer, then av_frame_alloc of pframeYUV. */
  method AllocateFrame(t: Trace) returns (trace: Trace)
    requires Holding(t, {FormatContext, CodecContext})
    ensures trace == t + FrameSteps
    ensures Holding(trace, {FormatContext, CodecContext, FrameBuffer, FrameYuv})
  {
    ghost var held: set<Resource> := {FormatContext, CodecContext};
    trace := AddAcquire(t, FrameBuffer, held, Allowed);
    held := held + {FrameBuffer};
    trace := AddAcquire(trace, FrameYuv, held, Allowed);
    held := held + {FrameYuv};
    assert held == {FormatContext, CodecContext, FrameBuffer, FrameYuv};
  }

  /** The av_image_fill_arrays and SDL_Init failures: av_free, av_frame_free(pframeYUV), then the codec and the input. */
  method FreeFrameOnError(t: Trace) returns (trace: Trace)
    requires Guarded(t, Allowed) && Replay(t) == Some({FormatContext, CodecContext, FrameBuffer, FrameYuv})
    ensures trace == t + FrameErrorSteps
    ensures Guarded(trace, Allowed) && Replay(trace) == Some({})
    ensures Acquired(trace) == Acquired(t) && Effects(trace) == Effects(t)
  {
    ghost var held: set<Resource> := {FormatContext, CodecContext, FrameBuffer, FrameYuv};
    trace := AddRelease(t, FrameBuffer, held, Allowed);
    held := held - {FrameBuffer};
    trace := AddRelease(trace, FrameYuv, held, Allowed);
    held := held - {FrameYuv};
    assert held == {FormatContext, CodecContext};
    trace := CloseCodec(trace);
  }

  /** A successful SDL_Init. */
  method InitSdl(t: Trace) returns (trace: Trace)
    requires Holding(t, {FormatContext, CodecContext, FrameBuffer, FrameYuv})
    ensures trace == t + [Acquire(Sdl)]
    ensures Holding(trace, {FormatContext, CodecContext, FrameBuffer, FrameYuv, Sdl})
  {
    ghost var held: set<Resource> := {FormatContext, CodecContext, FrameBuffer, FrameYuv};
    trace := AddAcquire(t, Sdl, held, Allowed);
    held := held + {Sdl};
    assert held == {FormatContext, CodecContext, FrameBuffer, FrameYuv, Sdl};
  }

  /** From pframe's allocation to the end of main: the scratch objects, the threads, the pump and the shutdown. */
  method Play(packets: seq<Packet>, videoIndex: int, decoder: Decoder, delay: int, t: Trace) returns (code: int, trace: Trace)
    requires Holding(t, {FormatContext, CodecContext, FrameBuffer, FrameYuv, Sdl})
    ensures code == 0
    ensures trace == t + ScratchSteps + ThreadSteps + Wrap(PumpTrace(packets, videoIndex, decoder, OnFrame(delay))) + ShutdownSteps
    ensures Replay(trace) == Some({})
    ensures Acquired(trace) == AllResources
    ensures Guarded(trace, Allowed)
    ensures Effects(trace) == PumpTrace(packets, videoIndex, decoder, OnFrame(delay)) + [Act(Push(QuitVideo)), Act(Push(QuitAudio))]
    ensures |trace| >= |ShutdownSteps| && trace[|trace| - |ShutdownSteps|..] == ShutdownSteps
  {
    trace := AllocateScratch(t);
    trace := StartThreads(trace);
    var effects := Pump(packets, videoIndex, decoder, delay);
    PumpAllowed(packets, videoIndex, decoder, delay);
    DoAll(trace, effects, AllResources, Allowed);
    trace := trace + Wrap(effects);
    trace := Shutdown(trace);
    assert trace[|trace| - |ShutdownSteps|..] == ShutdownSteps;
    code := 0;
  }

  /** av_frame_alloc of pframe, av_packet_alloc, sws_getContext. */
  method AllocateScratch(t: Trace) returns (trace: Trace)
    requires Holding(t, {FormatContext, CodecContext, FrameBuffer, FrameYuv, Sdl})
    ensures trace == t + ScratchSteps
    ensures Holding(trace, AllResources - {AudioThread, VideoThread})
  {
    ghost var held: set<Resource> := {FormatContext, CodecContext, FrameBuffer, FrameYuv, Sdl};
    trace := AddAcquire(t, DecodedFrame, held, Allowed);
    held := held + {DecodedFrame};
    trace := AddAcquire(trace, PacketBuffer, held, Allowed);
    held := held + {PacketBuffer};
    trace := AddAcquire(trace, ScaleContext, held, Allowed);
    held := held + {ScaleContext};
    assert held == AllResources - {AudioThread, VideoThread};
  }

  /** SDL_CreateThread of play_audio, then of play_video with the VideoThreadArgs. */
  method StartThreads(t: Trace) returns (trace: Trace)
    requires Holding(t, AllResources - {AudioThread, VideoThread})
    ensures trace == t + ThreadSteps
    ensures Holding(trace, AllResources)
  {
    ghost var held: set<Resource> := AllResources - {AudioThread, VideoThread};
    trace := AddAcquire(t, AudioThread, held, Allowed);
    held := held + {AudioThread};
    trace := AddAcquire(trace, VideoThread, held, Allowed);
    held := held + {VideoThread};
    assert held == AllResources;
  }

  /**
   * Push QUIT_VIDEO, join the video thread, push QUIT_AUDIO, join the audio
   * thread, SDL_Quit, then free the FFmpeg objects.
   */
  method Shutdown(t: Trace) returns (trace: Trace)
    requires Guarded(t, Allowed) && Replay(t) == Some(AllResources)
    ensures trace == t + ShutdownSteps
    ensures Guarded(trace, Allowed) && Replay(trace) == Some({})
    ensures Acquired(trace) == Acquired(t)
    ensures Effects(trace) == Effects(t) + [Act(Push(QuitVideo)), Act(Push(QuitAudio))]
  {
    trace := StopThreads(t);
    trace := FreeScratch(trace);
    trace := FreeFrame(trace);
  }

  /** Push QUIT_VIDEO, join the video thread, push QUIT_AUDIO, join the audio thread, SDL_Quit. */
  method StopThreads(t: Trace) returns (trace: Trace)
    requires Guarded(t, Allowed) && Replay(t) == Some(AllResources)
    ensures trace == t + ShutdownSteps[..5]
    ensures Guarded(trace, Allowed) && Replay(trace) == Some(AllResources - {VideoThread, AudioThread, Sdl})
    ensures Acquired(trace) == Acquired(t)
    ensures Effects(trace) == Effects(t) + [Act(Push(QuitVideo)), Act(Push(QuitAudio))]
  {
    trace := StopVideo(t);
    trace := StopAudio(trace);
    trace := AddRelease(trace, Sdl, AllResources - {VideoThread, AudioThread}, Allowed);
    assert AllResources - {VideoThread, AudioThread} - {Sdl} == AllResources - {VideoThread, AudioThread, Sdl};
    assert t + ShutdownSteps[..4] + [Release(Sdl)] == t + ShutdownSteps[..5];
  }

  /** Push QUIT_VIDEO, then SDL_WaitThread on the video thread. */
  method StopVideo(t: Trace) returns (trace: Trace)
    requires Guarded(t, Allowed) && Replay(t) == Some(AllResources)
    ensures trace == t + ShutdownSteps[..2]
    ensures Guarded(trace, Allowed) && Replay(trace) == Some(AllResources - {VideoThread})
    ensures Acquired(trace) == Acquired(t) && Effects(trace) == Effects(t) + [Act(Push(QuitVideo))]
  {
    trace := AddDo(t, Act(Push(QuitVideo)), AllResources, Allowed);
    trace := AddRelease(trace, VideoThread, AllResources, Allowed);
  }

  /** Push QUIT_AUDIO, then SDL_WaitThread on the audio thread. */
  method StopAudio(t: Trace) returns (trace: Trace)
    requires Guarded(t, Allowed) && Replay(t) == Some(AllResources - {VideoThread})
    ensures trace == t + ShutdownSteps[2..4]
    ensures Guarded(trace, Allowed) && Replay(trace) == Some(AllResources - {VideoThread, AudioThread})
    ensures Acquired(trace) == Acquired(t) && Effects(trace) == Effects(t) + [Act(Push(QuitAudio))]
  {
    ghost var held := AllResources - {VideoThread};
    trace := AddDo(t, Act(Push(QuitAudio)), held, Allowed);
    trace := AddRelease(trace, AudioThread, held, Allowed);
    assert held - {AudioThread} == AllResources - {VideoThread, AudioThread};
  }

  /** sws_freeContext, av_packet_free, av_frame_free(pframe). */
  method FreeScratch(t: Trace) returns (trace: Trace)
    requires Guarded(t, Allowed) && Replay(t) == Some(AllResources - {VideoThread, AudioThread, Sdl})
    ensures trace == t + ShutdownSteps[5..8]
    ensures Guarded(trace, Allowed) && Replay(trace) == Some({FormatContext, CodecContext, FrameBuffer, FrameYuv})
    ensures Acquired(trace) == Acquired(t) && Effects(trace) == Effects(t)
  {
    ghost var held := AllResources - {VideoThread, AudioThread, Sdl};
    trace := AddRelease(t, ScaleContext, held, Allowed);
    held := held - {ScaleContext};
    trace := AddRelease(trace, PacketBuffer, held, Allowed);
    held := held - {PacketBuffer};
    trace := AddRelease(trace, DecodedFrame, held, Allowed);
    held := held - {DecodedFrame};
    assert held == {FormatContext, CodecContext, FrameBuffer, FrameYuv};
  }

  /** av_frame_free(pframeYUV), av_free, avcodec_free_context, avformat_close_input. */
  method FreeFrame(t: Trace) returns (trace: Trace)
    requires Guarded(t, Allowed) && Replay(t) == Some({FormatContext, CodecContext, FrameBuffer, FrameYuv})
    ensures trace == t + ShutdownSteps[8..]
    ensures Guarded(trace, Allowed) && Replay(trace) == Some({})
    ensures Acquired(trace) == Acquired(t) && Effects(trace) == Effects(t)
  {
    ghost var held: set<Resource> := {FormatContext, CodecContext, FrameBuffer, FrameYuv};
    trace := AddRelease(t, FrameYuv, held, Allowed);
    held := held - {FrameYuv};
    trace := AddRelease(trace, FrameBuffer, held, Allowed);
    held := held - {FrameBuffer};
    trace := AddRelease(trace, CodecContext, held, Allowed);
    held := held - {CodecContext};
    trace := AddRelease(trace, FormatContext, held, Allowed);
    held := held - {FormatContext};
    assert held == {};
  }
}
