/**
 * The GL/EGL event sequences the renderer issues, as functions of the
 * state it reads: first-use specialisation (query the native format,
 * compile both programs, upload the video quad), one frame (export, bind
 * the planes, draw, overlays, swap, fence, hand-off), one overlay, and the
 * destructor's teardown. The renderer's methods are proved to append
 * exactly these sequences; the lemmas here state what the sequences
 * guarantee.
 */
module FrameSpec {
  import opened Types
  import opened Trace
  import opened ShaderSelection
  import opened ColorConversion
  import opened OverlayLayout
  import opened InitPolicy

  // ---- Specialisation ----

  /** What SDL and GL report while the renderer specialises for a native format. */
  datatype SpecializeEnv = SpecializeEnv(
    contextCurrent: bool,             // SDL_GL_MakeCurrent succeeded and EGL reports a current context
    video: ProgramBuild,              // building the video program
    overlay: ProgramBuild,            // building the overlay program
    locate: (nat, Uniform) -> int,     // glGetUniformLocation
    vao: nat,                         // the name glGenVertexArrays returns
    glErrorAfterSetup: bool)          // glGetError reports an error once the quad is uploaded

  /** GL hands out distinct names for objects alive at the same time, and never 0. */
  predicate GlNamesDistinct(env: SpecializeEnv) {
    DistinctNames(env.video) && DistinctNames(env.overlay) &&
    (env.video.program != 0 && env.overlay.program != 0 ==> env.video.program != env.overlay.program) &&
    env.vao != 0
  }

  /** compileShaders succeeds: the format has a video program and both programs build and link. */
  predicate CompileSucceeds(format: PixelFormat, env: SpecializeEnv) {
    ShaderVariant(format).Some? && ProgramBuilds(env.video) && ProgramBuilds(env.overlay)
  }

  /** specialize succeeds. */
  predicate SpecializeSucceeds(format: PixelFormat, env: SpecializeEnv) {
    env.contextCurrent && CompileSucceeds(format, env) && !env.glErrorAfterSetup
  }

  /** The uniform locations looked up, in the order of the names. */
  function Locations(locate: (nat, Uniform) -> int, program: nat, names: seq<Uniform>): (locs: seq<int>)
    ensures |locs| == |names|
    ensures forall i | 0 <= i < |names| :: locs[i] == locate(program, names[i])
  {
    seq(|names|, i requires 0 <= i < |names| => locate(program, names[i]))
  }

  /** The events of compileShaders: the video program, then the overlay program once the video one linked. */
  function CompileEvents(format: PixelFormat, env: SpecializeEnv): (t: seq<Event>)
    ensures forall e | e in t :: Quiet(e)
  {
    match ShaderVariant(format)
    case None => []
    case Some(v) =>
      var video := CompileShader(VideoShaderFiles(v), env.video);
      if video.handle == 0 then video.events
      else video.events + CompileShader(OverlayShaderFiles, env.overlay).events
  }

  /** The events of specialize, all of them invisible to the monitor. */
  function SpecializeBody(format: PixelFormat, env: SpecializeEnv): (t: seq<Event>)
    ensures forall e | e in t :: Quiet(e)
  {
    if !env.contextCurrent then []
    else if !CompileSucceeds(format, env) then CompileEvents(format, env)
    else CompileEvents(format, env) + [UseProgram(env.video.program), CreateVertexArray(env.vao), UploadVideoQuad(env.vao)]
  }

  /** renderFrame's first-use branch: query the format, specialise, and request a reset on failure. */
  function SpecializeEvents(native: PixelFormat, env: SpecializeEnv): seq<Event> {
    [QueryPixelFormat(native)] + SpecializeBody(native, env)
    + (if SpecializeSucceeds(native, env) then [] else [PushRenderTargetsReset])
  }

  /** The video program compileShaders stores, 0 when it does not build. */
  function VideoProgram(format: PixelFormat, env: SpecializeEnv): (p: nat)
    ensures p != 0 <==> ShaderVariant(format).Some? && ProgramBuilds(env.video)
  {
    match ShaderVariant(format)
    case None => 0
    case Some(v) => CompileShader(VideoShaderFiles(v), env.video).handle
  }

  /** The overlay program compileShaders stores, 0 when it is not built or does not link. */
  function OverlayProgram(format: PixelFormat, env: SpecializeEnv): (p: nat)
    ensures p != 0 <==> CompileSucceeds(format, env)
  {
    if VideoProgram(format, env) == 0 then 0
    else CompileShader(OverlayShaderFiles, env.overlay).handle
  }

  /**
   * Whatever compileShaders runs into, no shader object survives it, and the
   * programs left alive are exactly the ones it stores (0 standing for none).
   */
  lemma CompileLeavesOnlyStoredPrograms(format: PixelFormat, env: SpecializeEnv)
    requires GlNamesDistinct(env)
    ensures ShadersAfter({}, CompileEvents(format, env)) == {}
    ensures ProgramsAfter({}, CompileEvents(format, env)) ==
      {VideoProgram(format, env), OverlayProgram(format, env)} - {0}
  {
    match ShaderVariant(format)
    case None =>
    case Some(v) =>
      var video := CompileShader(VideoShaderFiles(v), env.video);
      CompileShaderLeavesOnlyProgram(VideoShaderFiles(v), env.video);
      if video.handle != 0 {
        var overlay := CompileShader(OverlayShaderFiles, env.overlay);
        CompileShaderLeavesOnlyProgram(OverlayShaderFiles, env.overlay);
        AfterAppend({}, {}, video.events, overlay.events);
        ProgramsShift({video.handle}, {}, overlay.events);
        assert {video.handle} + {} == {video.handle};
      }
  }

  // ---- One overlay ----

  /** What the overlay manager reports for one overlay during a frame. */
  datatype OverlayInput = OverlayInput(
    enabled: bool,              // isOverlayEnabled
    update: Option<Surface>,    // getUpdatedOverlaySurface: a new surface, if any
    repackAllocated: bool)      // the tightly packed copy could be allocated

  /** What renderOverlay reads from the renderer and the frame. */
  datatype OverlayContext = OverlayContext(
    program: nat,              // the overlay program
    textures: seq<nat>,        // the overlay textures, one per overlay
    location: int,             // the overlay program's sampler location
    glesMajor: int,
    hasUnpackSubimage: bool,
    viewportHeight: int)

  /** renderOverlay asserts that a row length, when GL takes one, is a whole number of pixels. */
  predicate Aligned(glesMajor: int, hasUnpackSubimage: bool, input: OverlayInput) {
    input.update.Some? && CanSetRowLength(glesMajor, hasUnpackSubimage) ==>
      input.update.value.pitch % BytesPerPixel == 0
  }

  predicate InputAligned(ctx: OverlayContext, input: OverlayInput) {
    Aligned(ctx.glesMajor, ctx.hasUnpackSubimage, input)
  }

  /** The surface needs a tightly packed copy and the copy cannot be allocated: renderOverlay gives up. */
  predicate OverlayAborted(ctx: OverlayContext, input: OverlayInput)
    requires InputAligned(ctx, input)
  {
    input.enabled && input.update.Some? && !input.repackAllocated &&
    ChooseUploadMode(ctx.glesMajor, ctx.hasUnpackSubimage, input.update.value).Repacked?
  }

  /** renderOverlay uploads a new surface. */
  predicate Uploads(ctx: OverlayContext, input: OverlayInput)
    requires InputAligned(ctx, input)
  {
    input.enabled && input.update.Some? && !OverlayAborted(ctx, input)
  }

  /** The upload renderOverlay performs, if any. */
  function OverlayUpload(ctx: OverlayContext, slot: OverlayType, input: OverlayInput): (u: Option<Event>)
    requires InputAligned(ctx, input)
    ensures u.Some? <==> Uploads(ctx, input)
    ensures u.Some? ==>
      u.value.UploadOverlay? && u.value.slot == slot &&
      u.value.rect == OverlayRect(slot, ctx.viewportHeight, input.update.value)
  {
    if Uploads(ctx, input) then
      var s := input.update.value;
      Some(UploadOverlay(slot, ChooseUploadMode(ctx.glesMajor, ctx.hasUnpackSubimage, s), OverlayRect(slot, ctx.viewportHeight, s)))
    else None
  }

  /** The overlay's valid-data flag after renderOverlay: set by an upload, otherwise as it was. */
  function OverlayValidAfter(ctx: OverlayContext, valid: bool, input: OverlayInput): bool
    requires InputAligned(ctx, input)
  {
    Uploads(ctx, input) || valid
  }

  /** The events of renderOverlay for one overlay. */
  function OverlayEvents(ctx: OverlayContext, slot: OverlayType, valid: bool, input: OverlayInput): (t: seq<Event>)
    requires InputAligned(ctx, input) && |ctx.textures| == OverlayMax
    ensures forall e | e in t :: Quiet(e)
  {
    if !input.enabled || OverlayAborted(ctx, input) then []
    else
      var up := OverlayUpload(ctx, slot, input);
      (if up.Some? then [up.value] else [])
      + (if up.Some? || valid then [UseProgram(ctx.program), DrawOverlay(slot, ctx.textures[OverlayIndex(slot)], ctx.location)] else [])
  }

  /**
   * An overlay is drawn exactly when it is enabled and holds valid data once
   * any new surface is uploaded, and then with its own texture; stale data
   * (a flag cleared while the overlay was disabled) is never drawn again
   * until a new surface arrives.
   */
  lemma OverlayDrawnIff(ctx: OverlayContext, slot: OverlayType, valid: bool, input: OverlayInput)
    requires InputAligned(ctx, input) && |ctx.textures| == OverlayMax
    ensures (exists e :: e in OverlayEvents(ctx, slot, valid, input) && e.DrawOverlay?) <==>
      input.enabled && !OverlayAborted(ctx, input) && (valid || input.update.Some?)
    ensures forall e | e in OverlayEvents(ctx, slot, valid, input) && e.DrawOverlay? ::
      e == DrawOverlay(slot, ctx.textures[OverlayIndex(slot)], ctx.location)
  {
    var t := OverlayEvents(ctx, slot, valid, input);
    if input.enabled && !OverlayAborted(ctx, input) && (valid || input.update.Some?) {
      assert t[|t| - 1] == DrawOverlay(slot, ctx.textures[OverlayIndex(slot)], ctx.location);
    }
  }

  /** The overlay pass of renderFrame: renderOverlay for the first k overlays, in index order. */
  function OverlayPass(ctx: OverlayContext, flags: seq<bool>, inputs: seq<OverlayInput>, k: nat): (t: seq<Event>)
    requires k <= OverlayMax && |flags| == OverlayMax && |inputs| == OverlayMax && |ctx.textures| == OverlayMax
    requires forall i | 0 <= i < OverlayMax :: InputAligned(ctx, inputs[i])
    ensures forall e | e in t :: Quiet(e)
  {
    if k == 0 then []
    else OverlayPass(ctx, flags, inputs, k - 1) + OverlayEvents(ctx, OverlayAt(k - 1), flags[k - 1], inputs[k - 1])
  }

  // ---- One frame ----

  /** What the backend, SDL and GL report during one renderFrame call. */
  datatype FrameEnv = FrameEnv(
    nativeFormat: PixelFormat,       // getEGLImagePixelFormat, read on first use
    specialize: SpecializeEnv,
    planeCount: int,                 // exportEGLImages: number of planes, negative on failure
    drawableWidth: int,
    drawableHeight: int,
    overlays: seq<OverlayInput>,     // one per overlay, in index order
    newFence: Option<FenceId>)       // what eglCreateSync returns, None for EGL_NO_SYNC

  /** The GL objects renderFrame draws with once the renderer is specialised. */
  datatype DrawContext = DrawContext(
    textures: seq<nat>,              // the plane textures
    program: nat,
    vao: nat,
    variant: VideoShader,
    params: seq<int>,                // the video program's uniform locations
    overlayProgram: nat,
    overlayTextures: seq<nat>,
    overlayLocation: int,
    glesMajor: int,
    hasUnpackSubimage: bool,
    overlayFlags: seq<bool>)         // the overlays' valid-data flags

  /** What renderFrame reads when it presents the frame and hands it off. */
  datatype PresentContext = PresentContext(
    blocking: bool,
    sync: SyncFunctions,
    fence: Option<FenceId>,          // the fence of the previous frame
    lastFrame: Option<FrameId>)      // the frame kept from the previous frame

  predicate DrawContextOk(dc: DrawContext) {
    |dc.textures| == MaxPlanes && |dc.overlayTextures| == OverlayMax && |dc.overlayFlags| == OverlayMax &&
    |dc.params| == |UniformNames(dc.variant)|
  }

  /** The backend exports at most one image per plane texture, and the overlay manager reports every overlay. */
  predicate FrameInputsOk(glesMajor: int, hasUnpackSubimage: bool, env: FrameEnv) {
    env.planeCount <= MaxPlanes && |env.overlays| == OverlayMax &&
    forall i | 0 <= i < OverlayMax :: Aligned(glesMajor, hasUnpackSubimage, env.overlays[i])
  }

  predicate FrameEnvOk(dc: DrawContext, env: FrameEnv) {
    FrameInputsOk(dc.glesMajor, dc.hasUnpackSubimage, env)
  }

  function OverlayCtx(dc: DrawContext, env: FrameEnv): OverlayContext {
    OverlayContext(dc.overlayProgram, dc.overlayTextures, dc.overlayLocation, dc.glesMajor, dc.hasUnpackSubimage, env.drawableHeight)
  }

  /** Texture unit i samples plane i. */
  function PlaneBindings(textures: seq<nat>, n: nat): (t: seq<Event>)
    requires n <= |textures|
    ensures |t| == n
    ensures forall i | 0 <= i < n :: t[i] == BindPlane(i, textures[i])
    ensures forall e | e in t :: Quiet(e)
  {
    seq(n, i requires 0 <= i < n => BindPlane(i, textures[i]))
  }

  /** The colour-conversion uniforms of the two-plane program, or the sampler of the opaque one. */
  function ShaderParameters(variant: VideoShader, params: seq<int>, frame: Frame): Event
    requires |params| == |UniformNames(variant)|
  {
    match variant
    case Nv12Shader => SetNv12Uniforms(params, GetColorMatrix(frame.colorspace, frame.fullRange), GetColorOffsets(frame.fullRange))
    case OpaqueShader => SetOpaqueSampler(params[0])
  }

  /** Clear, draw the video quad into the aspect-ratio viewport, then widen the viewport to the window. */
  function VideoDrawEvents(program: nat, vao: nat, variant: VideoShader, params: seq<int>, frame: Frame,
                           drawableWidth: int, drawableHeight: int): seq<Event>
    requires |params| == |UniformNames(variant)|
  {
    [ClearColorBuffer, SetVideoViewport(frame.width, frame.height, drawableWidth, drawableHeight),
     UseProgram(program), BindVertexArray(vao), ShaderParameters(variant, params, frame)]
    + [DrawVideo(frame.id)]
    + [BindVertexArray(0), SetFullViewport(drawableWidth, drawableHeight)]
  }

  /** Create the next fence after destroying the previous one, if any. */
  function FenceReplacement(fence: Option<FenceId>, newFence: Option<FenceId>): seq<Event> {
    FenceDeletion(fence) + [CreateFence(newFence)]
  }

  /** After a blocking swap: clear, then replace the previous frame's fence when fences work. */
  function BlockingSwapEvents(sync: SyncFunctions, fence: Option<FenceId>, newFence: Option<FenceId>): seq<Event> {
    [ClearColorBuffer] + (if sync.clientWait then FenceReplacement(fence, newFence) else [])
  }

  /** Swap the window, then the blocking-mode follow-up. */
  function PresentEvents(blocking: bool, sync: SyncFunctions, fence: Option<FenceId>, newFence: Option<FenceId>): seq<Event> {
    [SwapWindow] + (if blocking then BlockingSwapEvents(sync, fence, newFence) else [])
  }

  /** The fence renderFrame leaves for waitToRender. */
  function FenceAfter(blocking: bool, sync: SyncFunctions, fence: Option<FenceId>, newFence: Option<FenceId>): Option<FenceId> {
    if blocking && sync.clientWait then newFence else fence
  }

  /** Free the exported images, release the previously kept frame, keep this one. */
  function HandOffEvents(id: FrameId, lastFrame: Option<FrameId>): seq<Event> {
    [FreeImages(id)] + (if lastFrame.Some? then [ReleaseFrame(lastFrame.value)] else []) + [RetainFrame(id)]
  }

  /** Bind the planes, draw the video and render the overlays. */
  function DrawEvents(dc: DrawContext, frame: Frame, env: FrameEnv): seq<Event>
    requires DrawContextOk(dc) && FrameEnvOk(dc, env) && 0 <= env.planeCount
  {
    PlaneBindings(dc.textures, env.planeCount)
    + VideoDrawEvents(dc.program, dc.vao, dc.variant, dc.params, frame, env.drawableWidth, env.drawableHeight)
    + OverlayPass(OverlayCtx(dc, env), dc.overlayFlags, env.overlays, OverlayMax)
  }

  /** Present the frame, then hand it off. */
  function FinishEvents(pc: PresentContext, id: FrameId, newFence: Option<FenceId>): seq<Event> {
    PresentEvents(pc.blocking, pc.sync, pc.fence, newFence) + HandOffEvents(id, pc.lastFrame)
  }

  /** The events of renderFrame once the renderer is specialised. */
  function FrameEvents(dc: DrawContext, pc: PresentContext, frame: Frame, env: FrameEnv): seq<Event>
    requires DrawContextOk(dc) && FrameEnvOk(dc, env)
  {
    if env.planeCount < 0 then [ExportImages(frame.id, env.planeCount)]
    else [ExportImages(frame.id, env.planeCount)] + DrawEvents(dc, frame, env) + FinishEvents(pc, frame.id, env.newFence)
  }

  /** The first-use events after a prefix, in the order renderFrame appends them. */
  lemma SpecializeTraceSplit(t: seq<Event>, native: PixelFormat, env: SpecializeEnv)
    ensures t + SpecializeEvents(native, env) ==
      t + [QueryPixelFormat(native)] + SpecializeBody(native, env)
      + (if SpecializeSucceeds(native, env) then [] else [PushRenderTargetsReset])
  {
  }

  /** A frame's events after a prefix, in the order renderFrame appends them. */
  lemma FrameTraceSplit(t: seq<Event>, dc: DrawContext, pc: PresentContext, frame: Frame, env: FrameEnv)
    requires DrawContextOk(dc) && FrameEnvOk(dc, env) && 0 <= env.planeCount
    ensures t + FrameEvents(dc, pc, frame, env) ==
      t + [ExportImages(frame.id, env.planeCount)] + DrawEvents(dc, frame, env) + FinishEvents(pc, frame.id, env.newFence)
  {
  }

  /**
   * A drawn frame binds texture unit i to plane i for every exported plane,
   * sets the two-plane program's colour conversion from the frame's own
   * colorspace and range (or the opaque program's sampler), and draws the
   * video quad.
   */
  lemma FrameUsesColourTables(dc: DrawContext, pc: PresentContext, frame: Frame, env: FrameEnv)
    requires DrawContextOk(dc) && FrameEnvOk(dc, env) && 0 <= env.planeCount
    ensures forall i | 0 <= i < env.planeCount :: BindPlane(i, dc.textures[i]) in FrameEvents(dc, pc, frame, env)
    ensures dc.variant == Nv12Shader ==>
      SetNv12Uniforms(dc.params, GetColorMatrix(frame.colorspace, frame.fullRange), GetColorOffsets(frame.fullRange))
        in FrameEvents(dc, pc, frame, env)
    ensures dc.variant == OpaqueShader ==> SetOpaqueSampler(dc.params[0]) in FrameEvents(dc, pc, frame, env)
    ensures DrawVideo(frame.id) in FrameEvents(dc, pc, frame, env)
  {
    var planes := PlaneBindings(dc.textures, env.planeCount);
    var video := VideoDrawEvents(dc.program, dc.vao, dc.variant, dc.params, frame, env.drawableWidth, env.drawableHeight);
    var overlays := OverlayPass(OverlayCtx(dc, env), dc.overlayFlags, env.overlays, OverlayMax);
    var t := FrameEvents(dc, pc, frame, env);
    var head := [ExportImages(frame.id, env.planeCount)];
    assert t == head + (planes + video + overlays) + FinishEvents(pc, frame.id, env.newFence);
    forall e | e in planes || e in video
      ensures e in t
    {
      assert e in planes + video + overlays;
    }
    forall i | 0 <= i < env.planeCount
      ensures BindPlane(i, dc.textures[i]) in t
    {
      assert planes[i] == BindPlane(i, dc.textures[i]);
    }
    assert video[4] == ShaderParameters(dc.variant, dc.params, frame);
    assert video[5] == DrawVideo(frame.id);
  }

  // ---- What the monitor makes of specialisation and of a frame ----

  lemma ReplaySingle(om: Option<Monitor>, e: Event)
    ensures Replay(om, [e]) == Then(om, e)
  {
    assert [e][1..] == [];
  }

  /**
   * First use is legal once the format is unknown: the format query leaves
   * it known, and a failed specialisation forgets it again with the reset
   * request, so the next renderer may query it afresh.
   */
  lemma SpecializeReplay(m: Monitor, native: PixelFormat, env: SpecializeEnv)
    requires !m.formatKnown
    ensures Replay(Some(m), SpecializeEvents(native, env)) ==
      Some(m.(formatKnown := SpecializeSucceeds(native, env)))
  {
    var q := [QueryPixelFormat(native)];
    var body := SpecializeBody(native, env);
    var reset: seq<Event> := if SpecializeSucceeds(native, env) then [] else [PushRenderTargetsReset];
    ReplaySingle(Some(m), q[0]);
    ReplayConcat(Some(m), q, body);
    ReplayQuiet(Some(m.(formatKnown := true)), body);
    ReplayConcat(Some(m), q + body, reset);
    if !SpecializeSucceeds(native, env) {
      ReplaySingle(Some(m.(formatKnown := true)), PushRenderTargetsReset);
    }
  }

  /** Drawing the video quad is the one event of the draw the monitor records. */
  lemma VideoDrawReplay(m: Monitor, program: nat, vao: nat, variant: VideoShader, params: seq<int>, frame: Frame,
                        drawableWidth: int, drawableHeight: int)
    requires |params| == |UniformNames(variant)|
    ensures Replay(Some(m), VideoDrawEvents(program, vao, variant, params, frame, drawableWidth, drawableHeight)) ==
      Some(m.(drawnSinceRetain := true))
  {
    var a := [ClearColorBuffer, SetVideoViewport(frame.width, frame.height, drawableWidth, drawableHeight),
              UseProgram(program), BindVertexArray(vao), ShaderParameters(variant, params, frame)];
    var b := [DrawVideo(frame.id)];
    var c := [BindVertexArray(0), SetFullViewport(drawableWidth, drawableHeight)];
    ReplayConcat(Some(m), a + b, c);
    ReplayConcat(Some(m), a, b);
    ReplayQuiet(Some(m), a);
    ReplaySingle(Some(m), b[0]);
    ReplayQuiet(Some(m.(drawnSinceRetain := true)), c);
  }

  lemma FenceDeletionReplay(m: Monitor, fence: Option<FenceId>)
    requires m.fence == fence
    ensures Replay(Some(m), FenceDeletion(fence)) == Some(m.(fence := None))
  {
    if fence.Some? {
      ReplaySingle(Some(m), DestroyFence(fence.value));
    }
  }

  /** The previous fence is destroyed before the next one is created, so the creation is legal. */
  lemma FenceReplacementReplay(m: Monitor, fence: Option<FenceId>, newFence: Option<FenceId>)
    requires m.fence == fence
    ensures Replay(Some(m), FenceReplacement(fence, newFence)) == Some(m.(fence := newFence))
  {
    ReplayConcat(Some(m), FenceDeletion(fence), [CreateFence(newFence)]);
    FenceDeletionReplay(m, fence);
    ReplaySingle(Some(m.(fence := None)), CreateFence(newFence));
  }

  lemma BlockingSwapReplay(m: Monitor, sync: SyncFunctions, fence: Option<FenceId>, newFence: Option<FenceId>)
    requires m.fence == fence
    ensures Replay(Some(m), BlockingSwapEvents(sync, fence, newFence)) ==
      Some(m.(fence := FenceAfter(true, sync, fence, newFence)))
  {
    var r: seq<Event> := if sync.clientWait then FenceReplacement(fence, newFence) else [];
    ReplayConcat(Some(m), [ClearColorBuffer], r);
    ReplayQuiet(Some(m), [ClearColorBuffer]);
    if sync.clientWait {
      FenceReplacementReplay(m, fence, newFence);
    }
  }

  lemma PresentReplay(m: Monitor, blocking: bool, sync: SyncFunctions, fence: Option<FenceId>, newFence: Option<FenceId>)
    requires m.fence == fence
    ensures Replay(Some(m), PresentEvents(blocking, sync, fence, newFence)) ==
      Some(m.(fence := FenceAfter(blocking, sync, fence, newFence)))
  {
    var b: seq<Event> := if blocking then BlockingSwapEvents(sync, fence, newFence) else [];
    ReplayConcat(Some(m), [SwapWindow], b);
    ReplayQuiet(Some(m), [SwapWindow]);
    if blocking {
      BlockingSwapReplay(m, sync, fence, newFence);
    }
  }

  /** The images are freed and the previous frame is released only after this frame was drawn; this one is kept. */
  lemma HandOffReplay(m: Monitor, id: FrameId, lastFrame: Option<FrameId>)
    requires m.retained == lastFrame && m.drawnSinceRetain
    ensures Replay(Some(m), HandOffEvents(id, lastFrame)) ==
      Some(m.(imagesHeld := false, retained := Some(id), drawnSinceRetain := false))
  {
    var m1 := m.(imagesHeld := false);
    var r: seq<Event> := if lastFrame.Some? then [ReleaseFrame(lastFrame.value)] else [];
    ReplayConcat(Some(m), [FreeImages(id)] + r, [RetainFrame(id)]);
    ReplayConcat(Some(m), [FreeImages(id)], r);
    ReplaySingle(Some(m), FreeImages(id));
    if lastFrame.Some? {
      ReplaySingle(Some(m1), r[0]);
    }
    ReplaySingle(Some(m1.(retained := None)), RetainFrame(id));
  }

  /** Binding, drawing and the overlays: only the video draw is recorded. */
  lemma DrawReplay(m: Monitor, dc: DrawContext, frame: Frame, env: FrameEnv)
    requires DrawContextOk(dc) && FrameEnvOk(dc, env) && 0 <= env.planeCount
    ensures Replay(Some(m), DrawEvents(dc, frame, env)) == Some(m.(drawnSinceRetain := true))
  {
    var pb := PlaneBindings(dc.textures, env.planeCount);
    var vd := VideoDrawEvents(dc.program, dc.vao, dc.variant, dc.params, frame, env.drawableWidth, env.drawableHeight);
    var op := OverlayPass(OverlayCtx(dc, env), dc.overlayFlags, env.overlays, OverlayMax);
    ReplayConcat(Some(m), pb + vd, op);
    ReplayConcat(Some(m), pb, vd);
    ReplayQuiet(Some(m), pb);
    VideoDrawReplay(m, dc.program, dc.vao, dc.variant, dc.params, frame, env.drawableWidth, env.drawableHeight);
    ReplayQuiet(Some(m.(drawnSinceRetain := true)), op);
  }

  /** Presenting and handing the frame off. */
  lemma FinishReplay(m: Monitor, pc: PresentContext, id: FrameId, newFence: Option<FenceId>)
    requires m.fence == pc.fence && m.retained == pc.lastFrame && m.drawnSinceRetain
    ensures Replay(Some(m), FinishEvents(pc, id, newFence)) ==
      Some(m.(fence := FenceAfter(pc.blocking, pc.sync, pc.fence, newFence), imagesHeld := false,
              retained := Some(id), drawnSinceRetain := false))
  {
    ReplayConcat(Some(m), PresentEvents(pc.blocking, pc.sync, pc.fence, newFence), HandOffEvents(id, pc.lastFrame));
    PresentReplay(m, pc.blocking, pc.sync, pc.fence, newFence);
    HandOffReplay(m.(fence := FenceAfter(pc.blocking, pc.sync, pc.fence, newFence)), id, pc.lastFrame);
  }

  /**
   * A frame is legal from every state that agrees with the renderer: no
   * images held, the monitor's fence and kept frame are the renderer's. A
   * failed export changes nothing; otherwise the frame leaves the fence
   * FenceAfter names, keeps this frame and holds no images.
   */
  lemma FrameReplay(m: Monitor, dc: DrawContext, pc: PresentContext, frame: Frame, env: FrameEnv)
    requires DrawContextOk(dc) && FrameEnvOk(dc, env)
    requires m.fence == pc.fence && m.retained == pc.lastFrame && !m.imagesHeld
    ensures Replay(Some(m), FrameEvents(dc, pc, frame, env)) ==
      Some(if env.planeCount < 0 then m
           else m.(fence := FenceAfter(pc.blocking, pc.sync, pc.fence, env.newFence),
                   retained := Some(frame.id), drawnSinceRetain := false))
  {
    var t1 := [ExportImages(frame.id, env.planeCount)];
    var m1 := m.(imagesHeld := env.planeCount > 0);
    ReplaySingle(Some(m), t1[0]);
    if 0 <= env.planeCount {
      ReplayConcat(Some(m), t1 + DrawEvents(dc, frame, env), FinishEvents(pc, frame.id, env.newFence));
      ReplayConcat(Some(m), t1, DrawEvents(dc, frame, env));
      DrawReplay(m1, dc, frame, env);
      FinishReplay(m1.(drawnSinceRetain := true), pc, frame.id, env.newFence);
    }
  }

  // ---- Initialisation ----

  /** The texture set-up loops of initialize: each texture is bound and given its filtering and wrapping. */
  function Configured(names: seq<nat>): (t: seq<Event>)
    ensures |t| == |names|
    ensures forall i | 0 <= i < |names| :: t[i] == ConfigureTexture(names[i])
    ensures forall e | e in t :: Quiet(e)
  {
    seq(|names|, i requires 0 <= i < |names| => ConfigureTexture(names[i]))
  }

  // ---- Teardown ----

  /** glDeleteTextures for every texture name that is not 0, in index order. */
  function TextureDeletions(names: seq<nat>): (t: seq<Event>)
    ensures forall e | e in t :: Quiet(e)
    decreases |names|
  {
    if names == [] then []
    else
      TextureDeletions(names[..|names| - 1])
      + (if names[|names| - 1] != 0 then [DeleteTexture(names[|names| - 1])] else [])
  }

  /** The overlay loop of the destructor: each overlay's texture, then its vertex buffer, skipping 0. */
  function OverlayDeletions(textures: seq<nat>, vbos: seq<nat>, k: nat): (t: seq<Event>)
    requires k <= |textures| && k <= |vbos|
    ensures forall e | e in t :: Quiet(e)
  {
    if k == 0 then []
    else
      OverlayDeletions(textures, vbos, k - 1)
      + (if textures[k - 1] != 0 then [DeleteTexture(textures[k - 1])] else [])
      + (if vbos[k - 1] != 0 then [DeleteBuffer(vbos[k - 1])] else [])
  }

  /** What the destructor reads. */
  datatype TeardownState = TeardownState(
    hasContext: bool,
    fence: Option<FenceId>,
    program: nat,
    overlayProgram: nat,
    vao: nat,
    textures: seq<nat>,
    overlayTextures: seq<nat>,
    overlayVbos: seq<nat>,
    hasDummyRenderer: bool,
    lastFrame: Option<FrameId>)

  predicate TeardownStateOk(s: TeardownState) {
    |s.overlayTextures| == OverlayMax && |s.overlayVbos| == OverlayMax
  }

  /** The two programs, then the vertex array, skipping names that are 0. */
  function ProgramDeletions(program: nat, overlayProgram: nat, vao: nat): (t: seq<Event>)
    ensures forall e | e in t :: Quiet(e)
  {
    (if program != 0 then [DeleteProgram(program)] else [])
    + (if overlayProgram != 0 then [DeleteProgram(overlayProgram)] else [])
    + (if vao != 0 then [DeleteVertexArray(vao)] else [])
  }

  /** The programs, vertex array, textures and buffers the destructor deletes, skipping names that are 0. */
  function ObjectDeletions(s: TeardownState): (t: seq<Event>)
    requires TeardownStateOk(s)
    ensures forall e | e in t :: Quiet(e)
  {
    ProgramDeletions(s.program, s.overlayProgram, s.vao)
    + TextureDeletions(s.textures)
    + OverlayDeletions(s.overlayTextures, s.overlayVbos, OverlayMax)
  }

  /** eglDestroySync for the outstanding fence, if any. */
  function FenceDeletion(fence: Option<FenceId>): seq<Event> {
    if fence.Some? then [DestroyFence(fence.value)] else []
  }

  /** What the destructor releases while the context is current again: the outstanding fence, then the objects. */
  function GlTeardown(s: TeardownState): seq<Event>
    requires TeardownStateOk(s)
  {
    FenceDeletion(s.fence) + ObjectDeletions(s)
  }

  /** With a context: the GL teardown, then the context itself. */
  function ContextTeardown(s: TeardownState): seq<Event>
    requires TeardownStateOk(s)
  {
    if s.hasContext then GlTeardown(s) + [DeleteContext] else []
  }

  /** The context teardown after a prefix, in the order the destructor appends it. */
  lemma ContextTeardownSplit(t: seq<Event>, s: TeardownState)
    requires TeardownStateOk(s)
    ensures t + ContextTeardown(s) ==
      if s.hasContext then t + FenceDeletion(s.fence) + ObjectDeletions(s) + [DeleteContext] else t
  {
    if !s.hasContext {
      assert t + [] == t;
    }
  }

  function DummyRendererTeardown(hasDummyRenderer: bool): seq<Event> {
    if hasDummyRenderer then [DestroyDummyRenderer] else []
  }

  function LastFrameRelease(lastFrame: Option<FrameId>): seq<Event> {
    if lastFrame.Some? then [FreeLastFrame(lastFrame.value)] else []
  }

  /** The events of the destructor. */
  function TeardownEvents(s: TeardownState): seq<Event>
    requires TeardownStateOk(s)
  {
    ContextTeardown(s) + DummyRendererTeardown(s.hasDummyRenderer) + LastFrameRelease(s.lastFrame)
  }

  /** The GL part of the destructor destroys the outstanding fence and nothing else the monitor watches. */
  lemma GlTeardownReplay(m: Monitor, s: TeardownState)
    requires TeardownStateOk(s) && m.fence == s.fence
    ensures Replay(Some(m), GlTeardown(s) + [DeleteContext]) == Some(m.(fence := None))
  {
    ReplayConcat(Some(m), GlTeardown(s), [DeleteContext]);
    ReplayConcat(Some(m), FenceDeletion(s.fence), ObjectDeletions(s));
    FenceDeletionReplay(m, s.fence);
    ReplayQuiet(Some(m.(fence := None)), ObjectDeletions(s));
    ReplayQuiet(Some(m.(fence := None)), [DeleteContext]);
  }

  /**
   * The destructor is legal whenever the monitor's fence and kept frame are
   * the renderer's and a fence implies a context: it ends with no fence
   * outstanding and no frame kept.
   */
  lemma TeardownReplay(m: Monitor, s: TeardownState)
    requires TeardownStateOk(s)
    requires m.fence == s.fence && m.retained == s.lastFrame && (s.fence.Some? ==> s.hasContext)
    ensures Replay(Some(m), TeardownEvents(s)) == Some(m.(fence := None, retained := None))
  {
    var m1 := m.(fence := None);
    if s.hasContext {
      GlTeardownReplay(m, s);
    }
    ReplayConcat(Some(m), ContextTeardown(s) + DummyRendererTeardown(s.hasDummyRenderer), LastFrameRelease(s.lastFrame));
    ReplayConcat(Some(m), ContextTeardown(s), DummyRendererTeardown(s.hasDummyRenderer));
    ReplayQuiet(Some(m1), DummyRendererTeardown(s.hasDummyRenderer));
    if s.lastFrame.Some? {
      ReplaySingle(Some(m1), FreeLastFrame(s.lastFrame.value));
    }
  }

  lemma {:induction false} TextureDeletionsExact(names: seq<nat>)
    ensures forall e :: e in TextureDeletions(names) <==> exists i :: 0 <= i < |names| && names[i] != 0 && e == DeleteTexture(names[i])
    decreases |names|
  {
    if names != [] {
      var p := names[..|names| - 1];
      TextureDeletionsExact(p);
      forall e | (exists i :: 0 <= i < |names| && names[i] != 0 && e == DeleteTexture(names[i]))
        ensures e in TextureDeletions(names)
      {
        var i :| 0 <= i < |names| && names[i] != 0 && e == DeleteTexture(names[i]);
        if i < |p| {
          assert p[i] == names[i];
        }
      }
    }
  }

  lemma {:induction false} OverlayDeletionsExact(textures: seq<nat>, vbos: seq<nat>, k: nat)
    requires k <= |textures| && k <= |vbos|
    ensures forall e :: e in OverlayDeletions(textures, vbos, k) <==>
      exists i :: 0 <= i < k && ((textures[i] != 0 && e == DeleteTexture(textures[i])) || (vbos[i] != 0 && e == DeleteBuffer(vbos[i])))
  {
    if k != 0 {
      OverlayDeletionsExact(textures, vbos, k - 1);
    }
  }

  /** Every deletion the destructor issues names a non-zero object it holds, and only with a context. */
  lemma TeardownDeletesOnlyHeld(s: TeardownState)
    requires TeardownStateOk(s)
    ensures forall e | e in TeardownEvents(s) && (e.DeleteProgram? || e.DeleteVertexArray? || e.DeleteTexture? || e.DeleteBuffer?) ::
      s.hasContext &&
      (e.DeleteProgram? ==> e.program != 0 && (e.program == s.program || e.program == s.overlayProgram)) &&
      (e.DeleteVertexArray? ==> e.vao != 0 && e.vao == s.vao) &&
      (e.DeleteTexture? ==> e.texture != 0 && (e.texture in s.textures || e.texture in s.overlayTextures)) &&
      (e.DeleteBuffer? ==> e.buffer != 0 && e.buffer in s.overlayVbos)
  {
    TextureDeletionsExact(s.textures);
    OverlayDeletionsExact(s.overlayTextures, s.overlayVbos, OverlayMax);
    var tail := (if s.hasDummyRenderer then [DestroyDummyRenderer] else [])
      + (if s.lastFrame.Some? then [FreeLastFrame(s.lastFrame.value)] else []);
    forall e | e in tail ensures !(e.DeleteProgram? || e.DeleteVertexArray? || e.DeleteTexture? || e.DeleteBuffer?) {
    }
    if s.hasContext {
      assert TeardownEvents(s) == GlTeardown(s) + [DeleteContext] + tail;
    } else {
      assert TeardownEvents(s) == tail;
    }
  }

  /**
   * With a context, the destructor deletes every GL object it holds a name
   * for: the outstanding fence, each non-zero program and vertex array, and
   * each non-zero plane texture, overlay texture and overlay buffer.
   */
  lemma TeardownDeletesAllHeld(s: TeardownState)
    requires TeardownStateOk(s) && s.hasContext
    ensures var t := TeardownEvents(s);
      (s.fence.Some? ==> DestroyFence(s.fence.value) in t) &&
      (s.program != 0 ==> DeleteProgram(s.program) in t) &&
      (s.overlayProgram != 0 ==> DeleteProgram(s.overlayProgram) in t) &&
      (s.vao != 0 ==> DeleteVertexArray(s.vao) in t) &&
      (forall i | 0 <= i < |s.textures| && s.textures[i] != 0 :: DeleteTexture(s.textures[i]) in t) &&
      (forall i | 0 <= i < OverlayMax && s.overlayTextures[i] != 0 :: DeleteTexture(s.overlayTextures[i]) in t) &&
      (forall i | 0 <= i < OverlayMax && s.overlayVbos[i] != 0 :: DeleteBuffer(s.overlayVbos[i]) in t)
  {
    TextureDeletionsExact(s.textures);
    OverlayDeletionsExact(s.overlayTextures, s.overlayVbos, OverlayMax);
    var g := GlTeardown(s);
    assert forall e | e in g :: e in TeardownEvents(s);
  }

  /** The object deletions delete programs, vertex arrays, textures and buffers only. */
  lemma ObjectDeletionsOnlyDelete(s: TeardownState)
    requires TeardownStateOk(s)
    ensures forall e | e in ObjectDeletions(s) :: e.DeleteProgram? || e.DeleteVertexArray? || e.DeleteTexture? || e.DeleteBuffer?
  {
    TextureDeletionsExact(s.textures);
    OverlayDeletionsExact(s.overlayTextures, s.overlayVbos, OverlayMax);
  }

  /** The context goes exactly when there is one, the dummy renderer likewise, and the kept frame is freed. */
  lemma TeardownEndsEverything(s: TeardownState)
    requires TeardownStateOk(s)
    ensures (DeleteContext in TeardownEvents(s)) <==> s.hasContext
    ensures (DestroyDummyRenderer in TeardownEvents(s)) <==> s.hasDummyRenderer
    ensures s.lastFrame.Some? ==> FreeLastFrame(s.lastFrame.value) in TeardownEvents(s)
  {
    var c := ContextTeardown(s);
    var d := DummyRendererTeardown(s.hasDummyRenderer);
    var l := LastFrameRelease(s.lastFrame);
    assert TeardownEvents(s) == c + (d + l);
    var o := ObjectDeletions(s);
    ObjectDeletionsOnlyDelete(s);
    assert DeleteContext !in o && DestroyDummyRenderer !in o;
    if s.hasContext {
      assert c == FenceDeletion(s.fence) + o + [DeleteContext];
    }
  }
}
