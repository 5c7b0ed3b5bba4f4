/**
 * The two SDL worker threads of the player: play_audio and play_video. Each
 * blocks in SDL_WaitEvent, stops on a wait failure, on SDL_QUIT or on its own
 * quit code, handles its own play code and ignores every other event. A
 * worker runs over the events it happens to receive; if none of them stops
 * it, it is still blocked waiting for the next one.
 */
module Workers {
  import opened Media
  import opened Ledger

  const SDL_QUIT: int := 0x100
  const SDL_USEREVENT: int := 0x8000

  const PLAY_VIDEO_EVENT: int := 101
  const PLAY_AUDIO_EVENT: int := 102
  const QUIT_VIDEO_EVENT: int := 103
  const QUIT_AUDIO_EVENT: int := 104

  /** What a user event's data1 points to. */
  datatype Handle = Null | YuvFrame

  /** An SDL event as the workers read it: its type, and for a user event its code and data1. */
  datatype Event = Event(kind: int, code: int, data1: Handle)

  /** The result of one SDL_WaitEvent. */
  datatype Wait = WaitFailed | Got(event: Event)

  /** A user event with this code. */
  predicate IsUser(w: Wait, code: int) {
    w.Got? && w.event.kind == SDL_USEREVENT && w.event.code == code
  }

  /** The worker whose own quit code is `quit` leaves its loop on this wait. */
  predicate Stops(w: Wait, quit: int) {
    w.WaitFailed? || w.event.kind == SDL_QUIT || IsUser(w, quit)
  }

  function FirstStopFrom(ws: seq<Wait>, quit: int, i: nat): (r: Option<nat>)
    requires i <= |ws|
    ensures r.Some? ==> i <= r.value < |ws| && Stops(ws[r.value], quit)
    ensures r.Some? ==> forall j :: i <= j < r.value ==> !Stops(ws[j], quit)
    ensures r.None? <==> forall j :: i <= j < |ws| ==> !Stops(ws[j], quit)
    decreases |ws| - i
  {
    if i == |ws| then None
    else if Stops(ws[i], quit) then Some(i)
    else FirstStopFrom(ws, quit, i + 1)
  }

  /** The position of the first wait that stops the worker, if any. */
  function FirstStop(ws: seq<Wait>, quit: int): (r: Option<nat>)
    ensures r.Some? ==> r.value < |ws| && Stops(ws[r.value], quit)
    ensures r.Some? ==> forall j :: 0 <= j < r.value ==> !Stops(ws[j], quit)
    ensures r.None? <==> forall j :: 0 <= j < |ws| ==> !Stops(ws[j], quit)
  {
    FirstStopFrom(ws, quit, 0)
  }

  /** How a worker ends: it returned `status` after taking `consumed` events, or it is still waiting. */
  datatype Exit = Returned(status: int, consumed: nat) | Waiting

  /** The exit a worker with quit code `quit` takes on the waits ws: it returns 0 right after the first stop. */
  function ExitOn(ws: seq<Wait>, quit: int): Exit {
    match FirstStop(ws, quit)
    case Some(k) => Returned(0, k + 1)
    case None => Waiting
  }

  /** The events the worker handles: every one before its stop. */
  function Handled(ws: seq<Wait>, quit: int): seq<Wait> {
    match FirstStop(ws, quit)
    case Some(k) => ws[..k]
    case None => ws
  }

  /** The number of user events with this code. */
  function Count(ws: seq<Wait>, code: int): nat {
    if ws == [] then 0
    else Count(ws[..|ws| - 1], code) + (if IsUser(ws[|ws| - 1], code) then 1 else 0)
  }

  lemma {:induction false} CountAppend(ws: seq<Wait>, vs: seq<Wait>, code: int)
    ensures Count(ws + vs, code) == Count(ws, code) + Count(vs, code)
    decreases |vs|
  {
    if vs == [] {
      assert ws + vs == ws;
    } else {
      var k := |vs| - 1;
      assert (ws + vs)[..|ws + vs| - 1] == ws + vs[..k];
      CountAppend(ws, vs[..k], code);
    }
  }

  /** A wait that stops the worker right after events that do not. */
  lemma StopAt(ws: seq<Wait>, quit: int, k: nat)
    requires k < |ws| && Stops(ws[k], quit)
    requires forall j :: 0 <= j < k ==> !Stops(ws[j], quit)
    ensures FirstStop(ws, quit) == Some(k)
  {
  }

  // ---------------------------------------------------------------------
  // play_audio
  // ---------------------------------------------------------------------

  /**
   * play_audio: `plays` is the number of "play audio." lines it logs, one for
   * each PLAY_AUDIO_EVENT before it stops.
   */
  method PlayAudio(waits: seq<Wait>) returns (exit: Exit, plays: nat)
    ensures exit == ExitOn(waits, QUIT_AUDIO_EVENT)
    ensures plays == Count(Handled(waits, QUIT_AUDIO_EVENT), PLAY_AUDIO_EVENT)
  {
    plays := 0;
    var stopped := false;
    var i := 0;
    while i < |waits|
      invariant 0 <= i <= |waits|
      invariant forall j :: 0 <= j < i ==> !Stops(waits[j], QUIT_AUDIO_EVENT)
      invariant plays == Count(waits[..i], PLAY_AUDIO_EVENT)
    {
      var w := waits[i];
      assert waits[..i + 1][..i] == waits[..i];
      if w.WaitFailed? {
        stopped := true;
        break;
      }
      if w.event.kind == SDL_QUIT {
        stopped := true;
        break;
      }
      if w.event.kind == SDL_USEREVENT {
        if w.event.code == QUIT_AUDIO_EVENT {
          stopped := true;
          break;
        } else if w.event.code == PLAY_AUDIO_EVENT {
          plays := plays + 1;
        } else {
        }
      }
      i := i + 1;
    }
    if stopped {
      StopAt(waits, QUIT_AUDIO_EVENT, i);
      exit := Returned(0, i + 1);
    } else {
      assert waits[..i] == waits;
      exit := Waiting;
    }
  }

  // ---------------------------------------------------------------------
  // What the worker loop promises about any run
  // ---------------------------------------------------------------------

  /** Once a worker has stopped, nothing it might receive afterwards is handled. */
  lemma NothingAfterStop(ws: seq<Wait>, rest: seq<Wait>, quit: int)
    requires ExitOn(ws, quit).Returned?
    ensures ExitOn(ws + rest, quit) == ExitOn(ws, quit)
    ensures Handled(ws + rest, quit) == Handled(ws, quit)
  {
    var k := FirstStop(ws, quit).value;
    StopAt(ws + rest, quit, k);
    assert (ws + rest)[..k] == ws[..k];
  }

  /** A worker returns, always with status 0, exactly when one of its waits stops it. */
  lemma ReturnsIffStopped(ws: seq<Wait>, quit: int)
    ensures ExitOn(ws, quit).Returned? <==> exists j :: 0 <= j < |ws| && Stops(ws[j], quit)
    ensures ExitOn(ws, quit).Returned? ==> ExitOn(ws, quit).status == 0
  {
    if ExitOn(ws, quit).Returned? {
      var k := FirstStop(ws, quit).value;
      assert Stops(ws[k], quit);
    }
  }

  /**
   * An event that neither stops the worker nor is its play code changes
   * nothing: the worker's exit and the count of plays it handles are those
   * of the run without it, one event later.
   */
  lemma IgnoredEvent(w: Wait, ws: seq<Wait>, quit: int, play: int)
    requires !Stops(w, quit) && !IsUser(w, play)
    ensures ExitOn([w] + ws, quit) == match ExitOn(ws, quit) {
                                       case Returned(s, n) => Returned(s, n + 1)
                                       case Waiting => Waiting
                                     }
    ensures Count(Handled([w] + ws, quit), play) == Count(Handled(ws, quit), play)
  {
    var vs := [w] + ws;
    match FirstStop(ws, quit)
    case Some(k) =>
      assert vs[k + 1] == ws[k];
      forall j | 0 <= j < k + 1 ensures !Stops(vs[j], quit) {
        if j > 0 { assert vs[j] == ws[j - 1]; }
      }
      StopAt(vs, quit, k + 1);
      assert vs[..k + 1] == [w] + ws[..k];
      CountAppend([w], ws[..k], play);
      assert Count([w], play) == 0 by { assert [w][..0] == []; }
    case None =>
      forall j | 0 <= j < |vs| ensures !Stops(vs[j], quit) {
        if j > 0 { assert vs[j] == ws[j - 1]; }
      }
      CountAppend([w], ws, play);
      assert Count([w], play) == 0 by { assert [w][..0] == []; }
  }

  // ---------------------------------------------------------------------
  // play_video
  // ---------------------------------------------------------------------

  /** The VideoThreadArgs main hands to the video thread. */
  datatype VideoArgs = VideoArgs(name: string, width: int, height: int, delay: int)

  datatype Rect = Rect(x: int, y: int, w: int, h: int)

  /** The SDL objects the video worker creates. */
  datatype Gfx = Window | Renderer | Texture

  /** What the video worker does with them. */
  datatype Draw =
    | Update(rect: Rect, frame: Handle)  // SDL_UpdateYUVTexture with &sdl_rect and data1's planes
    | Clear                              // SDL_RenderClear
    | Copy(rect: Rect)                   // SDL_RenderCopy onto &sdl_rect
    | Present                            // SDL_RenderPresent

  predicate DrawAllowed(d: Draw, held: set<Gfx>) {
    match d
    case Update(_, _) => Texture in held
    case Clear => Renderer in held
    case Copy(_) => {Renderer, Texture} <= held
    case Present => Renderer in held
  }

  const AllGfx: set<Gfx> := {Window, Renderer, Texture}

  /** sdl_rect after the events ws: zero-initialised, and the whole window from the first play on. */
  function RectAfter(ws: seq<Wait>, width: int, height: int): Rect {
    if Count(ws, PLAY_VIDEO_EVENT) == 0 then Rect(0, 0, 0, 0) else Rect(0, 0, width, height)
  }

  /** What the worker draws for the handled events ws, in order. */
  function Renders(ws: seq<Wait>, width: int, height: int): seq<Draw> {
    if ws == [] then []
    else
      var k := |ws| - 1;
      Renders(ws[..k], width, height)
      + (if IsUser(ws[k], PLAY_VIDEO_EVENT)
         then [Update(RectAfter(ws[..k], width, height), ws[k].event.data1), Clear, Copy(Rect(0, 0, width, height)), Present]
         else [])
  }

  /** The steps of the worker's trace from SDL_CreateWindow to SDL_CreateTexture. */
  const CreateSteps: seq<Step<Gfx, Draw>> := [Acquire(Window), Acquire(Renderer), Acquire(Texture)]

  /** SDL_DestroyTexture, SDL_DestroyRenderer, SDL_DestroyWindow. */
  const DestroySteps: seq<Step<Gfx, Draw>> := [Release(Texture), Release(Renderer), Release(Window)]

  /**
   * play_video: create the window, renderer and texture, show every
   * PLAY_VIDEO_EVENT's frame until the worker stops, then destroy them in
   * reverse order and return 0.
   */
  method PlayVideoWorker(args: VideoArgs, waits: seq<Wait>) returns (exit: Exit, trace: seq<Step<Gfx, Draw>>)
    ensures exit == ExitOn(waits, QUIT_VIDEO_EVENT)
    ensures Guarded(trace, DrawAllowed) && Acquired(trace) == AllGfx
    ensures |trace| >= 3 && trace[..3] == CreateSteps
    ensures Effects(trace) == Renders(Handled(waits, QUIT_VIDEO_EVENT), args.width, args.height)
    ensures exit.Returned? ==> Replay(trace) == Some({}) && |trace| >= 6 && trace[|trace| - 3..] == DestroySteps
    ensures exit.Waiting? ==> Replay(trace) == Some(AllGfx)
  {
    var width := args.width;
    var height := args.height;
    trace := Create();
    var rect := Rect(0, 0, 0, 0);

    var stopped := false;
    var i := 0;
    while i < |waits|
      invariant 0 <= i <= |waits|
      invariant forall j :: 0 <= j < i ==> !Stops(waits[j], QUIT_VIDEO_EVENT)
      invariant rect == RectAfter(waits[..i], width, height)
      invariant Guarded(trace, DrawAllowed) && Replay(trace) == Some(AllGfx) && Acquired(trace) == AllGfx
      invariant |trace| >= 3 && trace[..3] == CreateSteps
      invariant Effects(trace) == Renders(waits[..i], width, height)
    {
      var w := waits[i];
      assert waits[..i + 1][..i] == waits[..i];
      if w.WaitFailed? {
        stopped := true;
        break;
      }
      if w.event.kind == SDL_QUIT {
        stopped := true;
        break;
      }
      if w.event.kind == SDL_USEREVENT {
        if w.event.code == QUIT_VIDEO_EVENT {
          stopped := true;
          break;
        } else if w.event.code == PLAY_VIDEO_EVENT {
          trace, rect := ShowFrame(trace, rect, w.event.data1, width, height);
        } else {
        }
      }
      i := i + 1;
    }
    if stopped {
      StopAt(waits, QUIT_VIDEO_EVENT, i);
      exit := Returned(0, i + 1);
    } else {
      assert waits[..i] == waits;
      exit := Waiting;
      return;
    }
    trace := Destroy(trace);
  }

  /** SDL_CreateWindow, SDL_CreateRenderer, SDL_CreateTexture. */
  method Create() returns (trace: seq<Step<Gfx, Draw>>)
    ensures trace == CreateSteps
    ensures Guarded(trace, DrawAllowed) && Replay(trace) == Some(AllGfx)
    ensures Acquired(trace) == AllGfx && Effects(trace) == []
  {
    ghost var held: set<Gfx> := {};
    trace := AddAcquire([], Window, held, DrawAllowed);
    held := held + {Window};
    trace := AddAcquire(trace, Renderer, held, DrawAllowed);
    held := held + {Renderer};
    trace := AddAcquire(trace, Texture, held, DrawAllowed);
    held := held + {Texture};
    assert held == AllGfx;
  }

  /** The PLAY_VIDEO_EVENT branch: update the texture through sdl_rect, set sdl_rect to the window, render. */
  method ShowFrame(t: seq<Step<Gfx, Draw>>, rect: Rect, data1: Handle, width: int, height: int)
    returns (trace: seq<Step<Gfx, Draw>>, rect': Rect)
    requires Guarded(t, DrawAllowed) && Replay(t) == Some(AllGfx)
    ensures Guarded(trace, DrawAllowed) && Replay(trace) == Some(AllGfx)
    ensures |trace| >= |t| && trace[..|t|] == t && Acquired(trace) == Acquired(t)
    ensures Effects(trace) == Effects(t) + [Update(rect, data1), Clear, Copy(Rect(0, 0, width, height)), Present]
    ensures rect' == Rect(0, 0, width, height)
  {
    ghost var held := AllGfx;
    trace := AddDo(t, Update(rect, data1), held, DrawAllowed);
    rect' := Rect(0, 0, width, height);
    trace := AddDo(trace, Clear, held, DrawAllowed);
    trace := AddDo(trace, Copy(rect'), held, DrawAllowed);
    trace := AddDo(trace, Present, held, DrawAllowed);
    assert trace == t + [Do(Update(rect, data1)), Do(Clear), Do(Copy(rect')), Do(Present)];
  }

  /** SDL_DestroyTexture, SDL_DestroyRenderer, SDL_DestroyWindow, in that order. */
  method Destroy(t: seq<Step<Gfx, Draw>>) returns (trace: seq<Step<Gfx, Draw>>)
    requires Guarded(t, DrawAllowed) && Replay(t) == Some(AllGfx)
    ensures trace == t + DestroySteps
    ensures Guarded(trace, DrawAllowed) && Replay(trace) == Some({})
    ensures Acquired(trace) == Acquired(t) && Effects(trace) == Effects(t)
  {
    ghost var held := AllGfx;
    trace := AddRelease(t, Texture, held, DrawAllowed);
    held := held - {Texture};
    trace := AddRelease(trace, Renderer, held, DrawAllowed);
    held := held - {Renderer};
    trace := AddRelease(trace, Window, held, DrawAllowed);
    held := held - {Window};
    assert held == {};
  }

  /** The rectangles the texture updates use. */
  function Updated(ds: seq<Draw>): seq<Rect> {
    if ds == [] then []
    else Updated(ds[..|ds| - 1]) + (if ds[|ds| - 1].Update? then [ds[|ds| - 1].rect] else [])
  }

  lemma {:induction false} UpdatedAppend(ds: seq<Draw>, es: seq<Draw>)
    ensures Updated(ds + es) == Updated(ds) + Updated(es)
    decreases |es|
  {
    if es == [] {
      assert ds + es == ds;
    } else {
      var k := |es| - 1;
      assert (ds + es)[..|ds + es| - 1] == ds + es[..k];
      UpdatedAppend(ds, es[..k]);
    }
  }

  lemma UpdatedOne(d: Draw)
    ensures Updated([d]) == if d.Update? then [d.rect] else []
  {
    assert [d][..0] == [];
  }

  /** Showing one frame updates the texture once, through the rectangle as it was before. */
  lemma UpdatedShown(before: Rect, data1: Handle, after: Rect)
    ensures Updated([Update(before, data1), Clear, Copy(after), Present]) == [before]
  {
    var shown := [Update(before, data1), Clear, Copy(after), Present];
    assert shown == [shown[0]] + [shown[1]] + [shown[2]] + [shown[3]];
    UpdatedAppend([shown[0]] + [shown[1]] + [shown[2]], [shown[3]]);
    UpdatedAppend([shown[0]] + [shown[1]], [shown[2]]);
    UpdatedAppend([shown[0]], [shown[1]]);
    UpdatedOne(shown[0]);
    UpdatedOne(shown[1]);
    UpdatedOne(shown[2]);
    UpdatedOne(shown[3]);
  }

  /**
   * One texture update per PLAY_VIDEO_EVENT handled; the first uses the
   * zero-initialised rectangle, because sdl_rect is only set after it, and
   * every later one uses the whole window.
   */
  lemma {:induction false} UpdateRects(ws: seq<Wait>, width: int, height: int)
    ensures |Updated(Renders(ws, width, height))| == Count(ws, PLAY_VIDEO_EVENT)
    ensures forall k :: 0 <= k < |Updated(Renders(ws, width, height))| ==>
              Updated(Renders(ws, width, height))[k] == if k == 0 then Rect(0, 0, 0, 0) else Rect(0, 0, width, height)
  {
    if ws != [] {
      var k := |ws| - 1;
      UpdateRects(ws[..k], width, height);
      var before := Renders(ws[..k], width, height);
      if IsUser(ws[k], PLAY_VIDEO_EVENT) {
        var shown := [Update(RectAfter(ws[..k], width, height), ws[k].event.data1), Clear, Copy(Rect(0, 0, width, height)), Present];
        UpdatedAppend(before, shown);
        UpdatedShown(RectAfter(ws[..k], width, height), ws[k].event.data1, Rect(0, 0, width, height));
        var all := Updated(Renders(ws, width, height));
        forall m | 0 <= m < |all| ensures all[m] == if m == 0 then Rect(0, 0, 0, 0) else Rect(0, 0, width, height) {
          if m < |Updated(before)| {
            assert all[m] == Updated(before)[m];
          }
        }
      } else {
        assert Renders(ws, width, height) == before + [];
        assert before + [] == before;
      }
    }
  }
}
