# FFmpeg/SDL tutorials: a Dafny model of the sequential core

The repository holds two C++ tutorial programs built on FFmpeg and SDL:

- `examples/1.SaveFrame/SaveFrame.cpp` decodes the first video stream of a
  container. It saves every 100th picture as a binary Netpbm ("P6") file
  named after its picture number.
- `examples/2.PlayVideo/PlayVideo.cpp` decodes the same way and converts
  every frame to YUV420P. It hands each frame to an SDL video thread with a
  user event, and both SDL worker threads (`play_audio`, `play_video`)
  dispatch on the events they receive.

Almost every line of both programs calls an opaque library. Only this
project's sequential logic is modelled, with each library call turned into
an input:

- The results of the setup calls are fields of a `Startup` record.
- The codec is an oracle. Given the packets sent so far and a new packet,
  it either rejects the packet or accepts it together with the frames that
  `avcodec_receive_frame` then returns.
- The packet read loop is a function of the container's packets.
- Each worker thread is a function of the events it happens to receive.

## Modules

- `Media` (media.dfy) holds the shared vocabulary:
  - `std::to_string` as decimal rendering, with its read-back;
  - the container's streams and the first-match stream search;
  - packets, frames, the decoder oracle, and the specification
    `PumpTrace` of the read / send / drain / unref loop, written for any
    per-frame work.
- `Ledger` (ledger.dfy) holds resource bookkeeping for a run. A run is a
  trace of `Acquire`, `Release` and `Do` steps.
  - Every handle is a distinct object that a run acquires at most once.
    `Replay` is the set of held handles. It is `None` after a second
    acquisition of a handle, held or not, and after the release of a
    handle that is not held.
  - `Guarded` says that every `Do` happened while the handles it needs
    were held.
  - `Acquired` and `Effects` are the two projections of the trace.

  A trace with `Replay(t) == Some({})` and `Acquired(t) == S` acquired
  exactly `S` and released each of them: `Balanced` shows the released
  set equals the acquired set, and `AcquiresOnce` and `ReleasesOnce` show
  no handle is acquired or released twice.
- `Ppm` (ppm.dfy) is `save_frame`. It writes a strided RGB24 buffer as P6,
  and a reader of that layout recovers width, height and exactly the
  visible bytes of every row. The reader also accepts numerals with
  leading zeros.
- `SaveFrame` (save_frame.dfy) is `main` of the frame-dump program:
  - the setup chain with the early return of each failure;
  - the pump with the every-100th-picture rule and the file name;
  - the teardown.
- `Workers` (workers.dfy) holds the two worker loops. Each stops on a wait
  failure, on `SDL_QUIT` or on its own quit code.
  - `play_audio` counts its `PLAY_AUDIO_EVENT`s.
  - `play_video` owns window, renderer and texture, and keeps the
    `sdl_rect` state.
  - A worker that receives no stopping event is still blocked: its exit is
    `Waiting`.
- `PlayVideo` (play_video.dfy) is `main` of the player:
  - setup including `SDL_Init`;
  - the pump that converts, posts and sleeps once per frame;
  - the fixed shutdown order.

As the code does, the model lets the first `SDL_UpdateYUVTexture` of
`play_video` use the zero-initialised rectangle. `sdl_rect` is only set
after that call. Every later update uses the whole window
(`Workers.UpdateRects`).

## Model

| member | source | states |
|---|---|---|
| Media.NatToStringValue | examples/1.SaveFrame/SaveFrame.cpp:249 | the decimal numeral `to_string` writes for a non-negative number reads back as that number |
| Media.IntToStringRoundTrip | examples/1.SaveFrame/SaveFrame.cpp:249 | `to_string` of any int, sign included, is read back exactly by the numeral parser |
| Media.IntToStringInjective | examples/1.SaveFrame/SaveFrame.cpp:249 | two ints have the same decimal rendering if and only if they are equal |
| Media.FirstOfType | examples/1.SaveFrame/SaveFrame.cpp:95-105 | the result is the lowest position whose stream has the requested type; it is None exactly when no stream has that type |
| Media.GetStreamByType | examples/2.PlayVideo/PlayVideo.cpp:109-119 | the index loop with early return yields exactly FirstOfType: the first stream of the type, or null |
| Media.PumpSendsMatching | examples/1.SaveFrame/SaveFrame.cpp:224-231 | the packets submitted to the codec are exactly the selected stream's packets, in container order; the number of sends is the number of matching packets |
| Media.PumpReadThenUnref | examples/1.SaveFrame/SaveFrame.cpp:224-254 | every packet read, whether skipped, rejected or decoded, is unref'd exactly once before the next read |
| Media.PumpActionsPerFrame | examples/1.SaveFrame/SaveFrame.cpp:231-251 | per-frame work happens once for each frame drained after an accepted send, in order; a rejected send drains nothing and the loop continues |
| Media.PacketEffectsObserved | examples/1.SaveFrame/SaveFrame.cpp:226-254 | one iteration reads the packet and unrefs it; it sends only a selected packet, and it drains frames only when the send is accepted |
| Ppm.SaveFrame | examples/1.SaveFrame/SaveFrame.cpp:281-300 | returns -1 and writes nothing if the file is not open; otherwise returns 0 and writes exactly `"P6\n" w " " h "\n" "255\n"` followed by the height rows |
| Ppm.RowsLength | examples/1.SaveFrame/SaveFrame.cpp:292-295 | the body is height x 3*width bytes, so stride padding is never written |
| Ppm.RowsAt | examples/1.SaveFrame/SaveFrame.cpp:292-295 | byte x of row i of the body is buffer byte i*linesize + x |
| Ppm.ParseHeaderBody | examples/1.SaveFrame/SaveFrame.cpp:290 | a header followed by a body of the announced size reads back as that width, height and body |
| Ppm.ParseWritten | examples/1.SaveFrame/SaveFrame.cpp:290-295 | round trip: reading a written file gives back width, height and exactly the visible bytes of each row |
| SaveFrame.FirstFailure | examples/1.SaveFrame/SaveFrame.cpp:56-207 | the first failing setup step, checked in main's order; a failure's exit code is never 0, and success implies a video stream exists |
| SaveFrame.GetVideoStream | examples/1.SaveFrame/SaveFrame.cpp:95-107 | the stream-search lambda finds the first video stream, or reports that there is none |
| SaveFrame.Pump | examples/1.SaveFrame/SaveFrame.cpp:224-255 | the read loop produces exactly PumpTrace with the frame-saving rule |
| SaveFrame.PumpPacket | examples/1.SaveFrame/SaveFrame.cpp:226-254 | one loop iteration: skip a foreign packet, tolerate a rejected send, drain an accepted one, always unref |
| SaveFrame.DrainFrames | examples/1.SaveFrame/SaveFrame.cpp:241-251 | the receive loop converts and saves exactly the frames whose picture number is a multiple of 100 |
| SaveFrame.SavesAreSampled | examples/1.SaveFrame/SaveFrame.cpp:244-250 | for any frames, the files saved are `<number>.ppm` of exactly the frames numbered by a multiple of 100, in order, and those same frames are converted |
| SaveFrame.SampledNumbered | examples/1.SaveFrame/SaveFrame.cpp:244 | of pictures 0..N-1, exactly ceil(N/100) are saved: pictures 0, 100, 200, ... |
| SaveFrame.FileNameInjective | examples/1.SaveFrame/SaveFrame.cpp:249 | two picture numbers get the same file name if and only if they are equal, so frames with distinct picture numbers are saved to distinct files |
| SaveFrame.Run | examples/1.SaveFrame/SaveFrame.cpp:51-273 | main returns the first failure's code, or 0 at the end of the stream; its trace is exactly `RunTrace` for that exit: the handles up to the failing step acquired and then released in source order, or the whole setup, the pump holding every handle, and the seven frees; the empty final ledger means, by `Balanced`, `AcquiresOnce` and `ReleasesOnce`, that every handle is acquired and released once; every step ran with the handles it needs |
| SaveFrame.SelectStream | examples/1.SaveFrame/SaveFrame.cpp:78-128 | with the input open: a stream-info failure, a missing video stream or a failed codec allocation closes the input and returns its code; otherwise the codec context is allocated and setup continues; the trace is exactly `RunTrace` for the exit taken |
| SaveFrame.Configure | examples/1.SaveFrame/SaveFrame.cpp:130-185 | each failure from parameters-to-context to buffer sizing returns its code after freeing the codec and closing the input; the trace is exactly `RunTrace` for the exit taken |
| SaveFrame.FillFrame | examples/1.SaveFrame/SaveFrame.cpp:187-272 | returns the fill-arrays code after freeing the buffer and the RGB frame before the codec and the input, with exactly those steps; otherwise returns 0 with the buffer and frame allocations, the scratch allocations, the pump and the teardown as the exact trace |
| SaveFrame.AllocateFrame | examples/1.SaveFrame/SaveFrame.cpp:188-189 | allocates the buffer, then the RGB frame |
| SaveFrame.FreeFrameOnError | examples/1.SaveFrame/SaveFrame.cpp:200-204 | releases the buffer, the RGB frame, the codec and the input, and nothing else |
| SaveFrame.CloseCodec | examples/1.SaveFrame/SaveFrame.cpp:137-138 | frees the codec, then closes the input |
| SaveFrame.Decode | examples/1.SaveFrame/SaveFrame.cpp:209-272 | returns 0 after exactly: the decoder's scratch allocations, the whole container's pump holding every handle, then the seven frees in source order |
| SaveFrame.AllocateScratch | examples/1.SaveFrame/SaveFrame.cpp:209-221 | allocates the decoded frame, the packet and the scaler |
| SaveFrame.Teardown | examples/1.SaveFrame/SaveFrame.cpp:261-270 | releases the scaler, the packet, the decoded frame, the RGB frame, the buffer, the codec and the input, in that order |
| SaveFrame.FreeFrame | examples/1.SaveFrame/SaveFrame.cpp:264-270 | releases the RGB frame, the buffer, the codec and the input |
| Workers.FirstStop | examples/2.PlayVideo/PlayVideo.cpp:398-416 | the first wait that stops a worker: a wait failure, SDL_QUIT, or a user event with its own quit code; no earlier wait stops it |
| Workers.PlayAudio | examples/2.PlayVideo/PlayVideo.cpp:339-373 | returns 0 right after the first wait failure, SDL_QUIT or QUIT_AUDIO_EVENT, or is still waiting; it logs one play for each PLAY_AUDIO_EVENT before the stop |
| Workers.ReturnsIffStopped | examples/2.PlayVideo/PlayVideo.cpp:343-372 | a worker returns exactly when one of its waits stops it, and always returns 0 |
| Workers.NothingAfterStop | examples/2.PlayVideo/PlayVideo.cpp:398-416 | events that arrive after the stopping one change neither the exit nor what was handled |
| Workers.IgnoredEvent | examples/2.PlayVideo/PlayVideo.cpp:356-369 | an event that neither stops the worker nor carries its play code is ignored: exit and handled plays are unchanged, one event later |
| Workers.PlayVideoWorker | examples/2.PlayVideo/PlayVideo.cpp:375-451 | creates window, renderer and texture; draws exactly Renders of the events before its stop; on return it has destroyed texture, renderer and window in that order, returning 0 |
| Workers.Create | examples/2.PlayVideo/PlayVideo.cpp:384-393 | acquires window, then renderer, then texture, and draws nothing |
| Workers.ShowFrame | examples/2.PlayVideo/PlayVideo.cpp:417-439 | updates the texture through the current rectangle, sets the rectangle to (0, 0, width, height), then clears, copies and presents |
| Workers.Destroy | examples/2.PlayVideo/PlayVideo.cpp:446-448 | destroys texture, then renderer, then window |
| Workers.UpdateRects | examples/2.PlayVideo/PlayVideo.cpp:394-433 | one texture update per handled PLAY_VIDEO_EVENT; the first uses the zero rectangle and every later one (0, 0, width, height) |
| PlayVideo.FirstFailure | examples/2.PlayVideo/PlayVideo.cpp:65-238 | the first failing setup step, SDL_Init included, in main's order; a failure's exit code is never 0 |
| PlayVideo.Pump | examples/2.PlayVideo/PlayVideo.cpp:268-302 | the read loop produces exactly PumpTrace with convert / post / sleep per frame |
| PlayVideo.PumpPacket | examples/2.PlayVideo/PlayVideo.cpp:270-301 | one iteration: skip a foreign packet, tolerate a rejected send, drain an accepted one, always unref |
| PlayVideo.DrainFrames | examples/2.PlayVideo/PlayVideo.cpp:283-298 | every drained frame is converted, posted as PLAY_VIDEO_EVENT, then waited for |
| PlayVideo.OnePushPerFrame | examples/2.PlayVideo/PlayVideo.cpp:285-298 | for any frames, each is converted once, in order, and exactly one PLAY_VIDEO_EVENT is posted per frame, all carrying the same pframeYUV |
| PlayVideo.DelayAfterPush | examples/2.PlayVideo/PlayVideo.cpp:292-297 | every post of a frame is immediately followed by SDL_Delay(delay) |
| PlayVideo.PerFrameWork | examples/2.PlayVideo/PlayVideo.cpp:285-298 | the per-frame work consists only of conversions, PLAY_VIDEO_EVENT posts and delays |
| PlayVideo.PumpAllowed | examples/2.PlayVideo/PlayVideo.cpp:268-302 | every pump step is allowed while main holds every handle, the video thread included |
| PlayVideo.Run | examples/2.PlayVideo/PlayVideo.cpp:65-331 | main returns the first failure's code, or 0; its trace is exactly `RunTrace` for that exit: the handles up to the failing step acquired and then released in source order, or the whole setup, SDL, the scratch objects and both threads, the pump, then QUIT_VIDEO, the video join, QUIT_AUDIO, the audio join, SDL_Quit and the FFmpeg frees, in that order; the empty final ledger means every handle is acquired and released once |
| PlayVideo.SelectStream | examples/2.PlayVideo/PlayVideo.cpp:91-141 | with the input open: a stream-info failure, a missing video stream or a failed codec allocation closes the input and returns its code; otherwise the codec context is allocated and setup continues; the trace is exactly `RunTrace` for the exit taken |
| PlayVideo.Configure | examples/2.PlayVideo/PlayVideo.cpp:144-199 | each failure from parameters-to-context to buffer sizing returns its code after freeing the codec and closing the input; the trace is exactly `RunTrace` for the exit taken |
| PlayVideo.FillFrame | examples/2.PlayVideo/PlayVideo.cpp:201-330 | returns the fill-arrays or SDL_Init code after freeing the buffer and the YUV frame before the codec and the input, with exactly those steps; otherwise returns 0 with SDL, the scratch objects, both threads, the pump and the shutdown as the exact trace |
| PlayVideo.AllocateFrame | examples/2.PlayVideo/PlayVideo.cpp:202-203 | allocates the buffer, then the YUV frame |
| PlayVideo.FreeFrameOnError | examples/2.PlayVideo/PlayVideo.cpp:231-235 | releases the buffer, the YUV frame, the codec and the input |
| PlayVideo.CloseCodec | examples/2.PlayVideo/PlayVideo.cpp:151-152 | frees the codec, then closes the input |
| PlayVideo.InitSdl | examples/2.PlayVideo/PlayVideo.cpp:225-227 | a successful SDL_Init adds SDL to what is held |
| PlayVideo.Play | examples/2.PlayVideo/PlayVideo.cpp:240-330 | returns 0 after exactly: the scratch allocations, the audio then the video thread, the pump holding every handle, then the shutdown steps |
| PlayVideo.AllocateScratch | examples/2.PlayVideo/PlayVideo.cpp:240-253 | allocates the decoded frame, the packet and the scaler |
| PlayVideo.StartThreads | examples/2.PlayVideo/PlayVideo.cpp:258-266 | creates the audio thread, then the video thread |
| PlayVideo.Shutdown | examples/2.PlayVideo/PlayVideo.cpp:309-328 | appends exactly the shutdown steps; QUIT_AUDIO is posted only after the video thread has been joined, and every handle is released |
| PlayVideo.StopThreads | examples/2.PlayVideo/PlayVideo.cpp:309-320 | appends exactly the QUIT_VIDEO push, the video join, the QUIT_AUDIO push, the audio join and SDL_Quit, leaving only the FFmpeg objects held |
| PlayVideo.StopVideo | examples/2.PlayVideo/PlayVideo.cpp:309-314 | posts QUIT_VIDEO while the video thread runs, then joins it |
| PlayVideo.StopAudio | examples/2.PlayVideo/PlayVideo.cpp:316-318 | posts QUIT_AUDIO once the video thread is gone, then joins the audio thread |
| PlayVideo.FreeScratch | examples/2.PlayVideo/PlayVideo.cpp:322-324 | frees the scaler, the packet and the decoded frame |
| PlayVideo.FreeFrame | examples/2.PlayVideo/PlayVideo.cpp:325-328 | frees the YUV frame, the buffer, the codec and the input |

## Left out

- Every FFmpeg and SDL call is an input or an oracle. That covers
  demuxing, decoding, the `sws_scale` pixel conversion, `av_image_*`
  sizing, and window, texture and render work. The trace records each
  conversion as `Convert(frame)`, but pixel values are not modelled.
- `file_exist` (`stat`), the `ofstream` open, console logging,
  `av_dump_format` and the logged thread exit statuses are I/O. File
  existence and the open's success are boolean inputs; a log line is
  modelled only as the audio worker's count of plays.
- The frame interval `(int)(1000 / fps)` is floating-point arithmetic. It is
  an opaque integer field `delay` of the player's `Startup`.
- Real threads and the single shared SDL event queue are not modelled.
  Either worker may take any event, and `pframeYUV` is reused while the
  video thread reads it; both are concurrency effects. Each worker is
  modelled over the events it happens to receive. The hand-over of
  `VideoThreadArgs` from `main` to `play_video` is a parameter.
- The null results of `av_malloc`, `av_frame_alloc`, `av_packet_alloc`,
  `sws_getContext`, `SDL_CreateThread`, `SDL_CreateWindow`,
  `SDL_CreateRenderer` and `SDL_CreateTexture` are never checked in the
  source. They are modelled as always succeeding.
- A failing `avformat_open_input` frees its own context. The model
  therefore acquires the format context only when the open succeeds.
- `av_read_frame` ends the loop both at the end of the stream and on a
  read error, and main returns 0 either way. The container is modelled as
  the finite sequence of packets read before the loop ends.
- Ppm.SaveFrame: width, height and linesize are non-negative, and the
  buffer must hold every row it reads. A negative linesize (bottom-up
  images), a negative dimension meeting the unsigned loop counter, and
  reads past the buffer are not modelled.
- SaveFrame.Pump: the C++ `%` truncates toward zero, and Dafny's is
  Euclidean. The two agree on whether a remainder is 0, which is all the
  sampling rule asks, so negative picture numbers behave as in the source.
