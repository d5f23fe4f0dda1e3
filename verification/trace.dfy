/**
 * The renderer's GL, EGL, SDL and backend calls as abstract events, and a
 * monitor that reads an event sequence and rejects the ones that break the
 * renderer's resource lifecycles:
 *  - at most one EGL fence is outstanding, and only that one is waited on or destroyed;
 *  - the native pixel format is queried again only after a reset request;
 *  - a new export happens only after the previous frame's images are freed;
 *  - the retained frame is released only once a later draw has been issued.
 */
module Trace {
  import opened Types
  import opened OverlayLayout

  datatype ShaderStage = VertexStage | FragmentStage

  datatype Event =
    // first-use specialisation
    | QueryPixelFormat(format: PixelFormat)
    | CreateShader(stage: ShaderStage, shader: nat)
    | CompileShaderSource(shader: nat, file: ShaderFile)
    | DeleteShader(shader: nat)
    | CreateProgram(program: nat)
    | LinkProgram(program: nat, vertexShader: nat, fragmentShader: nat)
    | DeleteProgram(program: nat)
    | CreateVertexArray(vao: nat)
    | UploadVideoQuad(vao: nat)
    | PushRenderTargetsReset
    // one frame
    | ExportImages(frame: FrameId, planes: int)
    | BindPlane(textureUnit: nat, texture: nat)
    | ClearColorBuffer
    | SetVideoViewport(frameWidth: int, frameHeight: int, drawableWidth: int, drawableHeight: int)
    | UseProgram(program: nat)
    | BindVertexArray(vao: nat)
    | SetNv12Uniforms(locations: seq<int>, matrix: seq<real>, offsets: seq<real>)
    | SetOpaqueSampler(location: int)
    | DrawVideo(frame: FrameId)
    | SetFullViewport(width: int, height: int)
    | UploadOverlay(slot: OverlayType, mode: UploadMode, rect: Rect)
    | DrawOverlay(slot: OverlayType, texture: nat, location: int)
    | SwapWindow
    | CreateFence(created: Option<FenceId>)
    | DestroyFence(fence: FenceId)
    | WaitFence(fence: FenceId)
    | Finish
    | FreeImages(frame: FrameId)
    | ReleaseFrame(frame: FrameId)
    | RetainFrame(frame: FrameId)
    // set-up and teardown
    | ConfigureTexture(texture: nat)
    | DeleteVertexArray(vao: nat)
    | DeleteTexture(texture: nat)
    | DeleteBuffer(buffer: nat)
    | DeleteContext
    | DestroyDummyRenderer
    | FreeLastFrame(frame: FrameId)

  /** What the monitor remembers of the events read so far. */
  datatype Monitor = Monitor(
    formatKnown: bool,             // a pixel format was queried and not reset since
    fence: Option<FenceId>,        // the outstanding fence
    retained: Option<FrameId>,     // the frame kept alive after its presentation
    drawnSinceRetain: bool,        // a video draw was issued after the last retain
    imagesHeld: bool)              // exported plane images not yet freed

  const InitialMonitor := Monitor(false, None, None, false, false)

  /** One monitor step; `None` rejects the event. */
  function Step(m: Monitor, e: Event): Option<Monitor> {
    match e
    case QueryPixelFormat(_) =>
      if m.formatKnown then None else Some(m.(formatKnown := true))
    case PushRenderTargetsReset =>
      if m.formatKnown then Some(m.(formatKnown := false)) else None
    case ExportImages(_, n) =>
      if m.imagesHeld then None else Some(m.(imagesHeld := n > 0))
    case FreeImages(_) =>
      Some(m.(imagesHeld := false))
    case DrawVideo(_) =>
      Some(m.(drawnSinceRetain := true))
    case CreateFence(r) =>
      if m.fence.Some? then None else Some(m.(fence := r))
    case DestroyFence(f) =>
      if m.fence == Some(f) then Some(m.(fence := None)) else None
    case WaitFence(f) =>
      if m.fence == Some(f) then Some(m) else None
    case ReleaseFrame(f) =>
      if m.retained == Some(f) && m.drawnSinceRetain then Some(m.(retained := None)) else None
    case FreeLastFrame(f) =>
      if m.retained == Some(f) then Some(m.(retained := None)) else None
    case RetainFrame(f) =>
      if m.retained.None? then Some(m.(retained := Some(f), drawnSinceRetain := false)) else None
    case _ =>
      Some(m)
  }

  function Then(om: Option<Monitor>, e: Event): Option<Monitor> {
    if om.None? then None else Step(om.value, e)
  }

  /** The monitor after reading the first n events from the initial state. */
  function RunPrefix(t: seq<Event>, n: nat): Option<Monitor>
    requires n <= |t|
  {
    if n == 0 then Some(InitialMonitor) else Then(RunPrefix(t, n - 1), t[n - 1])
  }

  /** The monitor after reading the whole sequence from the initial state. */
  function Run(t: seq<Event>): Option<Monitor> {
    RunPrefix(t, |t|)
  }

  /** The monitor's state after n events depends on those n events only. */
  lemma {:induction false} RunPrefixAgree(t: seq<Event>, u: seq<Event>, n: nat)
    requires n <= |t| && n <= |u|
    requires forall i | 0 <= i < n :: t[i] == u[i]
    ensures RunPrefix(t, n) == RunPrefix(u, n)
  {
    if n > 0 {
      RunPrefixAgree(t, u, n - 1);
    }
  }

  /** Reading a non-empty sequence is reading all but its last event, then that event. */
  lemma RunInit(t: seq<Event>)
    requires t != []
    ensures Run(t) == Then(Run(t[..|t| - 1]), t[|t| - 1])
  {
    RunPrefixAgree(t, t[..|t| - 1], |t| - 1);
  }

  predicate Legal(t: seq<Event>) {
    Run(t).Some?
  }

  /** The events the monitor does not look at. */
  predicate Quiet(e: Event) {
    !(e.QueryPixelFormat? || e.PushRenderTargetsReset? || e.ExportImages? || e.FreeImages? ||
      e.DrawVideo? || e.CreateFence? || e.DestroyFence? || e.WaitFence? ||
      e.ReleaseFrame? || e.FreeLastFrame? || e.RetainFrame?)
  }

  lemma RunSnoc(t: seq<Event>, e: Event)
    ensures Run(t + [e]) == Then(Run(t), e)
  {
    RunPrefixAgree(t + [e], t, |t|);
  }

  /** Appending events the monitor does not look at leaves its verdict and state unchanged. */
  lemma {:induction false} RunQuiet(t: seq<Event>, u: seq<Event>)
    requires forall e | e in u :: Quiet(e)
    ensures Run(t + u) == Run(t)
    decreases |u|
  {
    if u == [] {
      assert t + u == t;
    } else {
      var v := u[..|u| - 1];
      assert t + u == (t + v) + [u[|u| - 1]];
      RunSnoc(t + v, u[|u| - 1]);
      RunQuiet(t, v);
      assert u[|u| - 1] in u;
      QuietStep(Run(t + v), u[|u| - 1]);
    }
  }

  lemma QuietStep(om: Option<Monitor>, e: Event)
    requires Quiet(e)
    ensures Then(om, e) == om
  {
  }

  /** The monitor reading `u` front to back, starting where `om` stands. */
  function Replay(om: Option<Monitor>, u: seq<Event>): Option<Monitor>
    decreases |u|
  {
    if u == [] then om else Replay(Then(om, u[0]), u[1..])
  }

  lemma {:induction false} ReplayNone(u: seq<Event>)
    ensures Replay(None, u) == None
    decreases |u|
  {
    if u != [] {
      ReplayNone(u[1..]);
    }
  }

  /** Reading a sequence after a prefix continues from where the prefix left the monitor. */
  lemma {:induction false} RunAppend(t: seq<Event>, u: seq<Event>)
    ensures Run(t + u) == Replay(Run(t), u)
    decreases |u|
  {
    if u == [] {
      assert t + u == t;
    } else {
      assert t + u == (t + [u[0]]) + u[1..];
      RunSnoc(t, u[0]);
      RunAppend(t + [u[0]], u[1..]);
    }
  }

  lemma {:induction false} ReplayConcat(om: Option<Monitor>, a: seq<Event>, b: seq<Event>)
    ensures Replay(om, a + b) == Replay(Replay(om, a), b)
    decreases |a|
  {
    if a == [] {
      assert a + b == b;
    } else {
      assert (a + b)[0] == a[0] && (a + b)[1..] == a[1..] + b;
      ReplayConcat(Then(om, a[0]), a[1..], b);
    }
  }

  lemma {:induction false} ReplayQuiet(om: Option<Monitor>, u: seq<Event>)
    requires forall e | e in u :: Quiet(e)
    ensures Replay(om, u) == om
    decreases |u|
  {
    if u != [] {
      assert u[0] in u;
      QuietStep(om, u[0]);
      assert forall e | e in u[1..] :: e in u;
      ReplayQuiet(om, u[1..]);
    }
  }

  /** Every prefix of a legal sequence is legal. */
  lemma {:induction false} LegalPrefix(t: seq<Event>, k: nat)
    requires Legal(t) && k <= |t|
    ensures Legal(t[..k])
    decreases |t|
  {
    if k < |t| {
      var p := t[..|t| - 1];
      RunInit(t);
      assert p[..k] == t[..k];
      LegalPrefix(p, k);
    } else {
      assert t[..k] == t;
    }
  }

  // ---- Independent counting definitions ----

  function Count(t: seq<Event>, p: Event -> bool): nat
    decreases |t|
  {
    if t == [] then 0 else Count(t[..|t| - 1], p) + (if p(t[|t| - 1]) then 1 else 0)
  }

  predicate IsFenceCreated(e: Event) { e.CreateFence? && e.created.Some? }
  predicate IsFenceDestroyed(e: Event) { e.DestroyFence? }
  predicate IsFormatQuery(e: Event) { e.QueryPixelFormat? }
  predicate IsReset(e: Event) { e.PushRenderTargetsReset? }

  /** The fences a sequence leaves outstanding: created minus destroyed. */
  function Outstanding(t: seq<Event>): int {
    Count(t, IsFenceCreated) - Count(t, IsFenceDestroyed)
  }

  /** In a legal sequence the monitor's fence is exactly the created-minus-destroyed balance. */
  lemma {:induction false} FenceBalance(t: seq<Event>)
    requires Legal(t)
    ensures Outstanding(t) == (if Run(t).value.fence.Some? then 1 else 0)
    decreases |t|
  {
    if t != [] {
      var p := t[..|t| - 1];
      RunInit(t);
      FenceBalance(p);
    }
  }

  /** At most one fence is outstanding after every prefix of a legal sequence. */
  lemma AtMostOneFence(t: seq<Event>)
    requires Legal(t)
    ensures forall k | 0 <= k <= |t| :: 0 <= Outstanding(t[..k]) <= 1
  {
    forall k | 0 <= k <= |t|
      ensures 0 <= Outstanding(t[..k]) <= 1
    {
      LegalPrefix(t, k);
      FenceBalance(t[..k]);
    }
  }

  /** A fence is created only when none is outstanding: the previous one was destroyed first. */
  lemma CreateOnlyWhenNoneOutstanding(t: seq<Event>, i: nat)
    requires Legal(t) && i < |t| && t[i].CreateFence?
    ensures Outstanding(t[..i]) == 0
  {
    LegalPrefix(t, i + 1);
    assert t[..i + 1][..i] == t[..i];
    RunInit(t[..i + 1]);
    FenceBalance(t[..i]);
  }

  /** The pixel format is queried once, and once more only after each reset request. */
  lemma {:induction false} FormatQueriedOncePerReset(t: seq<Event>)
    requires Legal(t)
    ensures Count(t, IsFormatQuery) == Count(t, IsReset) + (if Run(t).value.formatKnown then 1 else 0)
    decreases |t|
  {
    if t != [] {
      var p := t[..|t| - 1];
      RunInit(t);
      FormatQueriedOncePerReset(p);
    }
  }

  /** Index of the last RetainFrame event, or -1 when there is none. */
  function LastRetain(t: seq<Event>): (i: int)
    ensures -1 <= i < |t|
    ensures 0 <= i ==> t[i].RetainFrame?
    decreases |t|
  {
    if t == [] then -1
    else if t[|t| - 1].RetainFrame? then |t| - 1
    else LastRetain(t[..|t| - 1])
  }

  /**
   * What the monitor's frame fields mean: the retained frame is the one of
   * the last RetainFrame event, and "drawn since retain" means a DrawVideo
   * event follows that event.
   */
  lemma {:induction false} RetainedWitness(t: seq<Event>)
    requires Legal(t)
    ensures Run(t).value.retained.Some? ==>
      0 <= LastRetain(t) && t[LastRetain(t)] == RetainFrame(Run(t).value.retained.value)
    ensures Run(t).value.drawnSinceRetain ==>
      exists j :: LastRetain(t) < j < |t| && t[j].DrawVideo?
    decreases |t|
  {
    if t != [] {
      var p := t[..|t| - 1];
      var e := t[|t| - 1];
      RunInit(t);
      RetainedWitness(p);
      if e.DrawVideo? {
        assert LastRetain(t) < |t| - 1 && t[|t| - 1].DrawVideo?;
      } else if !e.RetainFrame? {
        if Run(t).value.drawnSinceRetain {
          var j :| LastRetain(p) < j < |p| && p[j].DrawVideo?;
          assert t[j] == p[j];
        }
      }
    }
  }

  /**
   * The previous frame is released only after a new frame has been drawn:
   * the frame released at index i is the one last retained before i, and a
   * DrawVideo event lies strictly between that retain and the release.
   */
  lemma ReleaseFollowsDraw(t: seq<Event>, i: nat)
    requires Legal(t) && i < |t| && t[i].ReleaseFrame?
    ensures 0 <= LastRetain(t[..i]) && t[LastRetain(t[..i])] == RetainFrame(t[i].frame)
    ensures exists j :: LastRetain(t[..i]) < j < i && t[j].DrawVideo?
  {
    var p := t[..i];
    LegalPrefix(t, i + 1);
    assert t[..i + 1][..i] == p;
    RunInit(t[..i + 1]);
    RetainedWitness(p);
    var j :| LastRetain(p) < j < |p| && p[j].DrawVideo?;
    assert t[j] == p[j];
  }
}
