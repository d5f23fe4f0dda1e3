/**
 * EGLRenderer: the renderer that draws decoded frames, exported by a
 * backend renderer as EGL images, with GLES through SDL's EGL context.
 *
 * Every GL, EGL, SDL and backend call the renderer makes is appended to the
 * ghost `trace` as an `Event`. `Valid()` ties the fields to the trace: the
 * trace is accepted by the lifecycle monitor of module Trace, and the
 * monitor's state matches the fields (the outstanding fence is the stored
 * fence, the retained frame is the stored frame, no exported images are
 * held between calls, the pixel format is known exactly when stored). Each
 * method states the exact events it appends, as the functions of module
 * FrameSpec, and the new values of the fields it changes.
 */
module Renderer {
  import opened Types
  import opened Trace
  import opened ShaderSelection
  import opened ColorConversion
  import opened OverlayLayout
  import opened InitPolicy
  import opened FrameSpec

  datatype InitFailureReason = UnknownFailure | NoSoftwareSupport

  /** What SDL, EGL, GL and the backend report during initialize. */
  datatype InitEnv = InitEnv(
    sdlSupported: bool,                  // SDL 2.0.10 or later
    hdrRequested: bool,                  // the video format carries a 10-bit flag
    glLibraryLoaded: bool,               // SDL_GL_LoadLibrary
    renderDrivers: seq<Option<string>>,  // SDL_GetRenderDriverInfo for each driver, None on failure
    dummyRendererCreated: bool,          // SDL_CreateRenderer
    windowSystem: Option<WindowSystem>,  // SDL_GetWindowWMInfo
    contextCreated: bool,                // SDL_GL_CreateContext
    contextCurrent: bool,                // SDL_GL_MakeCurrent
    glStringsAvailable: bool,            // GL_VERSION, GL_VENDOR and GL_RENDERER, directly or through SDL_GL_GetProcAddress
    glesMajor: int,
    hasUnpackSubimage: bool,             // GL_EXT_unpack_subimage
    eglDisplay: bool,                    // eglGetCurrentDisplay
    imageExtensions: bool,               // EGL_KHR_image_base or EGL_KHR_image, and GL_OES_EGL_image
    backendReady: bool,                  // the backend's initializeEGL
    imageTargetFound: bool,              // glEGLImageTargetTexture2DOES
    vaoFunctionsFound: bool,             // the three vertex-array entry points
    hasKhrFenceSync: bool,               // EGL_KHR_fence_sync
    syncLookup: SyncLookup,
    vsync: bool,
    build: BuildConfig,
    textureFunctionsFound: bool,         // the texture, buffer and blend entry points
    textureNames: seq<nat>,              // glGenTextures for the planes
    overlayBufferNames: seq<nat>,        // glGenBuffers for the overlays
    overlayTextureNames: seq<nat>,       // glGenTextures for the overlays
    glErrors: bool)                      // glGetError reports errors at the end

  predicate HasGlesDriver(drivers: seq<Option<string>>) {
    exists i :: 0 <= i < |drivers| && drivers[i] == Some(GlesDriverName)
  }

  /** initialize gets as far as creating the dummy renderer. */
  predicate ReachesDummyRenderer(env: InitEnv) {
    env.sdlSupported && !env.hdrRequested && env.glLibraryLoaded && HasGlesDriver(env.renderDrivers)
  }

  /** initialize gets as far as creating the GL context. */
  predicate ReachesContext(env: InitEnv) {
    ReachesDummyRenderer(env) && env.dummyRendererCreated && env.windowSystem.Some?
  }

  /** initialize has a current context with working GL strings. */
  predicate ReachesGl(env: InitEnv) {
    ReachesContext(env) && env.contextCreated && env.contextCurrent && env.glStringsAvailable
  }

  /** initialize gets as far as choosing the sync functions and the swap mode. */
  predicate ReachesSwapSetup(env: InitEnv) {
    ReachesGl(env) && env.eglDisplay && env.imageExtensions && env.backendReady &&
    env.imageTargetFound && env.vaoFunctionsFound
  }

  /** initialize gets as far as creating the textures. */
  predicate ReachesTextures(env: InitEnv) {
    ReachesSwapSetup(env) && env.textureFunctionsFound
  }

  predicate InitSucceeds(env: InitEnv) {
    ReachesTextures(env) && !env.glErrors
  }

  /** The failures initialize reports as "no software support": the SDL-level ones up to a current GL context. */
  predicate NoSoftwareSupportFailure(env: InitEnv) {
    !env.sdlSupported ||
    (!env.hdrRequested &&
     (!env.glLibraryLoaded || !HasGlesDriver(env.renderDrivers) ||
      (ReachesDummyRenderer(env) && !env.dummyRendererCreated) ||
      (ReachesDummyRenderer(env) && env.dummyRendererCreated && env.windowSystem.None?) ||
      (ReachesContext(env) && !(env.contextCreated && env.contextCurrent && env.glStringsAvailable))))
  }

  class EglRenderer {
    var pixelFormat: PixelFormat                 // the native format of the exported images, none until first use
    var shaderProgram: nat
    var overlayShaderProgram: nat
    var shaderParams: seq<int>                   // the video program's uniform locations
    var overlayTextureLocation: int              // the overlay program's sampler location
    var vao: nat
    var lastRenderSync: Option<FenceId>          // the fence of the last presented frame
    var lastFrame: Option<FrameId>               // the frame kept until the next one is drawn
    var blockingSwap: bool
    var swapInterval: int
    var sync: SyncFunctions
    var hasContext: bool
    var hasDummyRenderer: bool
    var glesMajor: int
    var hasUnpackSubimage: bool
    var initFailureReason: InitFailureReason
    const textures: array<nat>                   // one per plane
    const overlayTextures: array<nat>            // one per overlay
    const overlayVbos: array<nat>                // one per overlay
    const overlayValid: array<bool>              // an overlay's texture holds current data
    ghost var trace: seq<Event>                  // every call made so far
    ghost var mon: Monitor                       // the lifecycle monitor after reading `trace`
    ghost var resetRequested: bool               // a render-targets reset was requested; the renderer is about to be replaced

    ghost predicate Shape() {
      textures.Length == MaxPlanes && overlayTextures.Length == OverlayMax &&
      overlayVbos.Length == OverlayMax && overlayValid.Length == OverlayMax &&
      textures != overlayTextures && textures != overlayVbos && overlayTextures != overlayVbos
    }

    /** The trace is legal, and `mon` is where the monitor stands after it. */
    ghost predicate Recorded()
      reads this`trace, this`mon
    {
      Run(trace) == Some(mon)
    }

    /** The monitor agrees with the fields, and no exported images are held. */
    ghost predicate Tracks()
      reads this`mon, this`pixelFormat, this`lastRenderSync, this`lastFrame
    {
      mon.formatKnown == (pixelFormat != PixFmtNone) && mon.fence == lastRenderSync &&
      mon.retained == lastFrame && !mon.imagesHeld
    }

    /** The sync entry points are all there or all absent, and a fence exists only where one can be waited on. */
    ghost predicate SyncConsistent()
      reads this`sync, this`lastRenderSync, this`hasContext, this`blockingSwap
    {
      (sync == NoSync || Usable(sync)) && !(sync.create && sync.createKhr) &&
      (lastRenderSync.Some? ==> hasContext && blockingSwap && Usable(sync))
    }

    ghost predicate Valid()
      reads this`trace, this`mon, this`pixelFormat, this`lastRenderSync, this`lastFrame
      reads this`sync, this`hasContext, this`blockingSwap
    {
      Shape() && Recorded() && Tracks() && SyncConsistent()
    }

    /**
     * Until a reset is requested: no programs and no vertex array before the first frame;
     * once specialised, both programs and the quad exist and the parameter
     * locations fit the video program.
     */
    ghost predicate Specialized()
      reads this`resetRequested, this`pixelFormat, this`vao, this`shaderProgram, this`overlayShaderProgram
      reads this`shaderParams
    {
      !resetRequested ==>
        if pixelFormat == PixFmtNone then vao == 0 && shaderProgram == 0 && overlayShaderProgram == 0
        else
          ShaderVariant(pixelFormat).Some? && shaderProgram != 0 && overlayShaderProgram != 0 && vao != 0 &&
          |shaderParams| == |UniformNames(ShaderVariant(pixelFormat).value)|
    }

    constructor ()
      ensures Valid() && Specialized() && trace == [] && !resetRequested
      ensures pixelFormat == PixFmtNone && !hasContext && !hasDummyRenderer
      ensures sync == NoSync && !blockingSwap && lastRenderSync.None? && lastFrame.None?
      ensures initFailureReason == UnknownFailure
      ensures forall i | 0 <= i < MaxPlanes :: textures[i] == 0
      ensures forall i | 0 <= i < OverlayMax :: overlayTextures[i] == 0 && overlayVbos[i] == 0 && !overlayValid[i]
      ensures fresh(textures) && fresh(overlayTextures) && fresh(overlayVbos) && fresh(overlayValid)
    {
      pixelFormat := PixFmtNone;
      shaderProgram, overlayShaderProgram, shaderParams, overlayTextureLocation, vao := 0, 0, [], 0, 0;
      lastRenderSync, lastFrame := None, None;
      blockingSwap, swapInterval, sync := false, 0, NoSync;
      hasContext, hasDummyRenderer := false, false;
      glesMajor, hasUnpackSubimage := 0, false;
      initFailureReason := UnknownFailure;
      textures := new nat[MaxPlanes](_ => 0);
      overlayTextures := new nat[OverlayMax](_ => 0);
      overlayVbos := new nat[OverlayMax](_ => 0);
      overlayValid := new bool[OverlayMax](_ => false);
      trace := [];
      mon := InitialMonitor;
      resetRequested := false;
    }

    // ---- initialize ----

    /**
     * The SDL part of initialize, up to a current GL context whose strings
     * can be read; every failure here is reported as "no software support",
     * except for the HDR refusal.
     */
    method OpenContext(env: InitEnv) returns (ok: bool)
      requires !hasContext && !hasDummyRenderer
      modifies this`hasContext, this`hasDummyRenderer, this`initFailureReason, this`glesMajor, this`hasUnpackSubimage
      ensures ok <==> ReachesGl(env)
      ensures initFailureReason == (if NoSoftwareSupportFailure(env) then NoSoftwareSupport else old(initFailureReason))
      ensures hasDummyRenderer <==> ReachesDummyRenderer(env) && env.dummyRendererCreated
      ensures hasContext <==> ReachesContext(env) && env.contextCreated
      ensures glesMajor == (if ok then env.glesMajor else old(glesMajor))
      ensures hasUnpackSubimage == (if ok then env.hasUnpackSubimage else old(hasUnpackSubimage))
    {
      if !env.sdlSupported {
        initFailureReason := NoSoftwareSupport;
        return false;
      }
      if env.hdrRequested {
        return false;
      }
      if !env.glLibraryLoaded {
        initFailureReason := NoSoftwareSupport;
        return false;
      }
      var renderIndex := FindRenderDriver(env.renderDrivers);
      if renderIndex == |env.renderDrivers| {
        initFailureReason := NoSoftwareSupport;
        return false;
      }
      hasDummyRenderer := env.dummyRendererCreated;
      if !hasDummyRenderer || env.windowSystem.None? {
        initFailureReason := NoSoftwareSupport;
        return false;
      }
      hasContext := env.contextCreated;
      if !hasContext || !env.contextCurrent || !env.glStringsAvailable {
        initFailureReason := NoSoftwareSupport;
        return false;
      }
      glesMajor, hasUnpackSubimage := env.glesMajor, env.hasUnpackSubimage;
      ok := true;
    }

    /** glGenTextures for the planes, then each plane texture is bound and given its filtering and wrapping. */
    method CreatePlaneTextures(names: seq<nat>)
      requires Shape() && |names| == MaxPlanes
      modifies this`trace, textures
      ensures textures[..] == names
      ensures trace == old(trace) + Configured(names)
    {
      forall i | 0 <= i < MaxPlanes {
        textures[i] := names[i];
      }
      for i := 0 to MaxPlanes
        invariant textures[..] == names
        invariant trace == old(trace) + Configured(names[..i])
      {
        trace := trace + [ConfigureTexture(textures[i])];
        assert Configured(names[..i + 1]) == Configured(names[..i]) + [ConfigureTexture(names[i])];
      }
      assert names[..MaxPlanes] == names;
    }

    /** glGenBuffers and glGenTextures for the overlays, then each overlay texture is configured like the plane ones. */
    method CreateOverlayObjects(bufferNames: seq<nat>, textureNames: seq<nat>)
      requires Shape() && |bufferNames| == OverlayMax && |textureNames| == OverlayMax
      modifies this`trace, overlayVbos, overlayTextures
      ensures overlayVbos[..] == bufferNames && overlayTextures[..] == textureNames
      ensures trace == old(trace) + Configured(textureNames)
    {
      forall i | 0 <= i < OverlayMax {
        overlayVbos[i] := bufferNames[i];
      }
      forall i | 0 <= i < OverlayMax {
        overlayTextures[i] := textureNames[i];
      }
      for i := 0 to OverlayMax
        invariant overlayVbos[..] == bufferNames && overlayTextures[..] == textureNames
        invariant trace == old(trace) + Configured(textureNames[..i])
      {
        trace := trace + [ConfigureTexture(overlayTextures[i])];
        assert Configured(textureNames[..i + 1]) == Configured(textureNames[..i]) + [ConfigureTexture(textureNames[i])];
      }
      assert textureNames[..OverlayMax] == textureNames;
    }

    /** The GL objects initialize creates: the plane textures, then the overlay buffers and textures. */
    method CreateGlObjects(env: InitEnv)
      requires Shape() && Recorded()
      requires |env.textureNames| == MaxPlanes && |env.overlayTextureNames| == OverlayMax
      requires |env.overlayBufferNames| == OverlayMax
      modifies this`trace, textures, overlayTextures, overlayVbos
      ensures Recorded()
      ensures textures[..] == env.textureNames && overlayTextures[..] == env.overlayTextureNames
      ensures overlayVbos[..] == env.overlayBufferNames
      ensures trace == old(trace) + Configured(env.textureNames) + Configured(env.overlayTextureNames)
    {
      CreatePlaneTextures(env.textureNames);
      RunQuiet(old(trace), Configured(env.textureNames));
      ghost var t := trace;
      CreateOverlayObjects(env.overlayBufferNames, env.overlayTextureNames);
      RunQuiet(t, Configured(env.overlayTextureNames));
    }

    /**
     * initialize: set up SDL's EGL context and the GL objects every frame
     * uses, stopping at the first check that fails; the sync entry points
     * and the swap mode are chosen once EGL images are known to work.
     */
    method Initialize(env: InitEnv) returns (ok: bool)
      requires Valid() && !hasContext && !hasDummyRenderer && lastRenderSync.None?
      requires |env.textureNames| == MaxPlanes && |env.overlayTextureNames| == OverlayMax
      requires |env.overlayBufferNames| == OverlayMax
      modifies this`hasContext, this`hasDummyRenderer, this`initFailureReason, this`glesMajor,
               this`hasUnpackSubimage, this`sync, this`blockingSwap, this`swapInterval, this`trace,
               textures, overlayTextures, overlayVbos
      ensures Valid()
      ensures ok <==> InitSucceeds(env)
      ensures initFailureReason == (if NoSoftwareSupportFailure(env) then NoSoftwareSupport else old(initFailureReason))
      ensures hasDummyRenderer <==> ReachesDummyRenderer(env) && env.dummyRendererCreated
      ensures hasContext <==> ReachesContext(env) && env.contextCreated
      ensures glesMajor == (if ReachesGl(env) then env.glesMajor else old(glesMajor))
      ensures hasUnpackSubimage == (if ReachesGl(env) then env.hasUnpackSubimage else old(hasUnpackSubimage))
      ensures ReachesSwapSetup(env) ==>
        sync == ResolveSyncFunctions(env.hasKhrFenceSync, env.syncLookup) &&
        blockingSwap == ChooseSwapMode(env.vsync, env.windowSystem.value, env.build).blocking &&
        swapInterval == ChooseSwapMode(env.vsync, env.windowSystem.value, env.build).interval
      ensures !ReachesSwapSetup(env) ==>
        sync == old(sync) && blockingSwap == old(blockingSwap) && swapInterval == old(swapInterval)
      ensures ReachesTextures(env) ==>
        textures[..] == env.textureNames && overlayTextures[..] == env.overlayTextureNames &&
        overlayVbos[..] == env.overlayBufferNames &&
        trace == old(trace) + Configured(env.textureNames) + Configured(env.overlayTextureNames)
      ensures !ReachesTextures(env) ==>
        textures[..] == old(textures[..]) && overlayTextures[..] == old(overlayTextures[..]) &&
        overlayVbos[..] == old(overlayVbos[..]) && trace == old(trace)
    {
      ok := OpenContext(env);
      if !ok {
        return;
      }
      if !env.eglDisplay || !env.imageExtensions || !env.backendReady || !env.imageTargetFound || !env.vaoFunctionsFound {
        return false;
      }
      sync := ResolveSyncFunctions(env.hasKhrFenceSync, env.syncLookup);
      var swap := ChooseSwapMode(env.vsync, env.windowSystem.value, env.build);
      swapInterval, blockingSwap := swap.interval, swap.blocking;
      if !env.textureFunctionsFound {
        return false;
      }
      CreateGlObjects(env);
      ok := !env.glErrors;
    }

    // ---- specialize and compileShaders ----

    /**
     * The programs and uniform locations compileShaders leaves for `format`
     * when it runs (`compiled`), whether or not it succeeds: each program
     * built is stored, and its uniforms are looked up as soon as it is;
     * what was not built keeps its old value (0 for the programs).
     */
    ghost predicate ProgramsLeft(format: PixelFormat, env: SpecializeEnv, compiled: bool, params0: seq<int>, location0: int)
      reads this`shaderProgram, this`overlayShaderProgram, this`shaderParams, this`overlayTextureLocation
    {
      shaderProgram == (if compiled then VideoProgram(format, env) else 0) &&
      overlayShaderProgram == (if compiled then OverlayProgram(format, env) else 0) &&
      shaderParams == (if shaderProgram != 0 then Locations(env.locate, shaderProgram, UniformNames(ShaderVariant(format).value)) else params0) &&
      overlayTextureLocation == (if overlayShaderProgram != 0 then env.locate(overlayShaderProgram, OverlayUniformNames[0]) else location0)
    }

    /**
     * compileShaders: build the video program the native format calls for
     * and the overlay program, and look up their uniforms. Each program is
     * stored as soon as it is built, so a later failure leaves it for the
     * destructor.
     */
    method CompileShaders(env: SpecializeEnv) returns (ok: bool)
      requires pixelFormat != PixFmtNone && shaderProgram == 0 && overlayShaderProgram == 0
      modifies this`shaderProgram, this`overlayShaderProgram, this`shaderParams, this`overlayTextureLocation, this`trace
      ensures ok <==> CompileSucceeds(pixelFormat, env)
      ensures trace == old(trace) + CompileEvents(pixelFormat, env)
      ensures shaderProgram == VideoProgram(pixelFormat, env)
      ensures overlayShaderProgram == OverlayProgram(pixelFormat, env)
      ensures ProgramsLeft(pixelFormat, env, true, old(shaderParams), old(overlayTextureLocation))
    {
      var variant := ShaderVariant(pixelFormat);
      if variant.None? {
        return false;
      }
      var video := CompileShader(VideoShaderFiles(variant.value), env.video);
      trace := trace + video.events;
      shaderProgram := video.handle;
      if shaderProgram == 0 {
        return false;
      }
      shaderParams := Locations(env.locate, shaderProgram, UniformNames(variant.value));
      var overlay := CompileShader(OverlayShaderFiles, env.overlay);
      trace := trace + overlay.events;
      overlayShaderProgram := overlay.handle;
      if overlayShaderProgram == 0 {
        return false;
      }
      overlayTextureLocation := env.locate(overlayShaderProgram, OverlayUniformNames[0]);
      ok := true;
    }

    /**
     * specialize: with the context current, build the programs, then create
     * the vertex array holding the full-screen quad; a GL error left over at
     * the end counts as a failure.
     */
    method Specialize(env: SpecializeEnv) returns (ok: bool)
      requires pixelFormat != PixFmtNone && vao == 0 && shaderProgram == 0 && overlayShaderProgram == 0
      modifies this`shaderProgram, this`overlayShaderProgram, this`shaderParams, this`overlayTextureLocation,
               this`vao, this`trace
      ensures ok <==> SpecializeSucceeds(pixelFormat, env)
      ensures trace == old(trace) + SpecializeBody(pixelFormat, env)
      ensures ProgramsLeft(pixelFormat, env, env.contextCurrent, old(shaderParams), old(overlayTextureLocation))
      ensures vao == (if env.contextCurrent && CompileSucceeds(pixelFormat, env) then env.vao else 0)
      ensures ok ==> shaderProgram == env.video.program && overlayShaderProgram == env.overlay.program && vao == env.vao
    {
      if !env.contextCurrent {
        assert trace == old(trace) + [];
        return false;
      }
      ok := CompileShaders(env);
      if ok {
        vao := env.vao;
        trace := trace + [UseProgram(shaderProgram), CreateVertexArray(vao), UploadVideoQuad(vao)];
        ok := !env.glErrorAfterSetup;
      }
    }

    // ---- renderOverlay and notifyOverlayUpdated ----

    ghost function CurrentOverlayCtx(viewportHeight: int): OverlayContext
      reads this`overlayShaderProgram, this`overlayTextureLocation, this`glesMajor, this`hasUnpackSubimage
      reads overlayTextures
    {
      OverlayContext(overlayShaderProgram, overlayTextures[..], overlayTextureLocation, glesMajor, hasUnpackSubimage, viewportHeight)
    }

    /**
     * notifyOverlayUpdated: a disabled overlay's data is marked stale; an
     * enabled one is left for renderOverlay to upload.
     */
    method NotifyOverlayUpdated(slot: OverlayType, enabled: bool)
      requires Shape()
      modifies overlayValid
      ensures overlayValid[..] ==
        if enabled then old(overlayValid[..]) else old(overlayValid[..])[OverlayIndex(slot) := false]
    {
      if !enabled {
        overlayValid[OverlayIndex(slot)] := false;
      }
    }

    /**
     * renderOverlay: nothing for a disabled overlay; upload a new surface if
     * there is one (giving up when the packed copy cannot be allocated), and
     * draw the overlay if its texture holds valid data.
     */
    method RenderOverlay(slot: OverlayType, viewportHeight: int, input: OverlayInput)
      requires Shape() && InputAligned(CurrentOverlayCtx(viewportHeight), input)
      modifies this`trace, overlayValid
      ensures trace == old(trace) +
        OverlayEvents(CurrentOverlayCtx(viewportHeight), slot, old(overlayValid[OverlayIndex(slot)]), input)
      ensures overlayValid[..] == old(overlayValid[..])[OverlayIndex(slot) :=
        OverlayValidAfter(CurrentOverlayCtx(viewportHeight), old(overlayValid[OverlayIndex(slot)]), input)]
    {
      var i := OverlayIndex(slot);
      if !input.enabled {
        return;
      }
      if input.update.Some? {
        var s := input.update.value;
        var mode := ChooseUploadMode(glesMajor, hasUnpackSubimage, s);
        if mode.Repacked? && !input.repackAllocated {
          return;
        }
        trace := trace + [UploadOverlay(slot, mode, OverlayRect(slot, viewportHeight, s))];
        overlayValid[i] := true;
      }
      if overlayValid[i] {
        trace := trace + [UseProgram(overlayShaderProgram), DrawOverlay(slot, overlayTextures[i], overlayTextureLocation)];
      }
    }

    /** The overlay loop of renderFrame: renderOverlay for each overlay in index order. */
    method RenderOverlays(drawableHeight: int, inputs: seq<OverlayInput>)
      requires Shape() && |inputs| == OverlayMax
      requires forall i | 0 <= i < OverlayMax :: Aligned(glesMajor, hasUnpackSubimage, inputs[i])
      modifies this`trace, overlayValid
      ensures trace == old(trace) + OverlayPass(CurrentOverlayCtx(drawableHeight), old(overlayValid[..]), inputs, OverlayMax)
      ensures forall i | 0 <= i < OverlayMax ::
        overlayValid[i] == OverlayValidAfter(CurrentOverlayCtx(drawableHeight), old(overlayValid[i]), inputs[i])
    {
      ghost var ctx := CurrentOverlayCtx(drawableHeight);
      ghost var flags := overlayValid[..];
      for k := 0 to OverlayMax
        invariant CurrentOverlayCtx(drawableHeight) == ctx
        invariant trace == old(trace) + OverlayPass(ctx, flags, inputs, k)
        invariant forall i | 0 <= i < k :: overlayValid[i] == OverlayValidAfter(ctx, flags[i], inputs[i])
        invariant forall i | k <= i < OverlayMax :: overlayValid[i] == flags[i]
      {
        RenderOverlay(OverlayAt(k), drawableHeight, inputs[k]);
      }
    }

    // ---- renderFrame ----

    ghost function DrawContextOf(flags: seq<bool>): DrawContext
      requires ShaderVariant(pixelFormat).Some?
      reads this`pixelFormat, this`shaderProgram, this`vao, this`shaderParams, this`overlayShaderProgram
      reads this`overlayTextureLocation, this`glesMajor, this`hasUnpackSubimage, textures, overlayTextures
    {
      DrawContext(textures[..], shaderProgram, vao, ShaderVariant(pixelFormat).value, shaderParams,
                  overlayShaderProgram, overlayTextures[..], overlayTextureLocation, glesMajor, hasUnpackSubimage, flags)
    }

    ghost function PresentContextOf(): PresentContext
      reads this`blockingSwap, this`sync, this`lastRenderSync, this`lastFrame
    {
      PresentContext(blockingSwap, sync, lastRenderSync, lastFrame)
    }

    /** The plane loop of renderFrame: texture unit i samples plane i's image. */
    method BindPlanes(n: nat)
      requires Shape() && n <= MaxPlanes
      modifies this`trace
      ensures trace == old(trace) + PlaneBindings(textures[..], n)
    {
      for i := 0 to n
        invariant trace == old(trace) + PlaneBindings(textures[..], i)
      {
        trace := trace + [BindPlane(i, textures[i])];
        assert PlaneBindings(textures[..], i + 1) == PlaneBindings(textures[..], i) + [BindPlane(i, textures[i])];
      }
    }

    /** Clear, draw the video quad with the program's parameters, then widen the viewport for the overlays. */
    method DrawVideoQuad(frame: Frame, drawableWidth: int, drawableHeight: int)
      requires ShaderVariant(pixelFormat).Some?
      requires |shaderParams| == |UniformNames(ShaderVariant(pixelFormat).value)|
      modifies this`trace
      ensures trace == old(trace) +
        VideoDrawEvents(shaderProgram, vao, ShaderVariant(pixelFormat).value, shaderParams, frame, drawableWidth, drawableHeight)
    {
      var parameters := ShaderParameters(ShaderVariant(pixelFormat).value, shaderParams, frame);
      trace := trace + [ClearColorBuffer, SetVideoViewport(frame.width, frame.height, drawableWidth, drawableHeight),
                        UseProgram(shaderProgram), BindVertexArray(vao), parameters];
      trace := trace + [DrawVideo(frame.id)];
      trace := trace + [BindVertexArray(0), SetFullViewport(drawableWidth, drawableHeight)];
    }

    /** Bind the planes, draw the video, then render every overlay over the whole window. */
    method Draw(frame: Frame, env: FrameEnv, ghost dc: DrawContext)
      requires Shape() && ShaderVariant(pixelFormat).Some?
      requires |shaderParams| == |UniformNames(ShaderVariant(pixelFormat).value)|
      requires FrameInputsOk(glesMajor, hasUnpackSubimage, env) && 0 <= env.planeCount
      requires dc == DrawContextOf(overlayValid[..])
      modifies this`trace, overlayValid
      ensures trace == old(trace) + DrawEvents(dc, frame, env)
      ensures forall i | 0 <= i < OverlayMax ::
        overlayValid[i] == OverlayValidAfter(CurrentOverlayCtx(env.drawableHeight), old(overlayValid[i]), env.overlays[i])
    {
      ghost var t := trace;
      ghost var bindings := PlaneBindings(dc.textures, env.planeCount);
      ghost var video := VideoDrawEvents(dc.program, dc.vao, dc.variant, dc.params, frame, env.drawableWidth, env.drawableHeight);
      ghost var pass := OverlayPass(OverlayCtx(dc, env), dc.overlayFlags, env.overlays, OverlayMax);
      BindPlanes(env.planeCount);
      DrawVideoQuad(frame, env.drawableWidth, env.drawableHeight);
      assert trace == t + bindings + video;
      assert CurrentOverlayCtx(env.drawableHeight) == OverlayCtx(dc, env);
      RenderOverlays(env.drawableHeight, env.overlays);
      assert trace == t + bindings + video + pass;
    }

    /** Swap, then in blocking mode clear and, when fences work, replace the previous frame's fence. */
    method Present(newFence: Option<FenceId>)
      requires SyncConsistent() && hasContext
      modifies this`trace, this`lastRenderSync
      ensures trace == old(trace) + PresentEvents(blockingSwap, sync, old(lastRenderSync), newFence)
      ensures lastRenderSync == FenceAfter(blockingSwap, sync, old(lastRenderSync), newFence)
      ensures SyncConsistent()
    {
      trace := trace + [SwapWindow];
      if blockingSwap {
        trace := trace + [ClearColorBuffer];
        if sync.clientWait {
          if lastRenderSync.Some? {
            trace := trace + [DestroyFence(lastRenderSync.value)];
          }
          if !sync.create {
            assert sync.createKhr;
          }
          trace := trace + [CreateFence(newFence)];
          lastRenderSync := newFence;
        }
      }
    }

    /** Free the exported images, release the previously kept frame and keep this one. */
    method HandOff(frame: FrameId)
      modifies this`trace, this`lastFrame
      ensures trace == old(trace) + HandOffEvents(frame, old(lastFrame))
      ensures lastFrame == Some(frame)
    {
      trace := trace + [FreeImages(frame)];
      if lastFrame.Some? {
        trace := trace + [ReleaseFrame(lastFrame.value)];
      }
      trace := trace + [RetainFrame(frame)];
      lastFrame := Some(frame);
    }

    /** Present the frame, then hand it off. */
    method PresentAndHandOff(frame: FrameId, newFence: Option<FenceId>)
      requires SyncConsistent() && hasContext
      modifies this`trace, this`lastRenderSync, this`lastFrame
      ensures trace == old(trace) + FinishEvents(old(PresentContextOf()), frame, newFence)
      ensures lastRenderSync == FenceAfter(blockingSwap, sync, old(lastRenderSync), newFence)
      ensures lastFrame == Some(frame) && SyncConsistent()
    {
      Present(newFence);
      HandOff(frame);
    }

    /** renderFrame once the renderer is specialised: from the export to the hand-off. */
    method DrawFrame(frame: Frame, env: FrameEnv)
      requires Valid() && hasContext && ShaderVariant(pixelFormat).Some?
      requires |shaderParams| == |UniformNames(ShaderVariant(pixelFormat).value)|
      requires FrameInputsOk(glesMajor, hasUnpackSubimage, env)
      modifies this`lastRenderSync, this`lastFrame, this`trace, this`mon, overlayValid
      ensures Valid()
      ensures trace == old(trace) + FrameEvents(DrawContextOf(old(overlayValid[..])), old(PresentContextOf()), frame, env)
      ensures env.planeCount < 0 ==>
        lastFrame == old(lastFrame) && lastRenderSync == old(lastRenderSync) && overlayValid[..] == old(overlayValid[..])
      ensures env.planeCount >= 0 ==>
        lastFrame == Some(frame.id) &&
        lastRenderSync == FenceAfter(blockingSwap, sync, old(lastRenderSync), env.newFence) &&
        forall i | 0 <= i < OverlayMax ::
          overlayValid[i] == OverlayValidAfter(CurrentOverlayCtx(env.drawableHeight), old(overlayValid[i]), env.overlays[i])
    {
      ghost var flags := overlayValid[..];
      ghost var dc := DrawContextOf(flags);
      ghost var pc := PresentContextOf();
      ghost var t := trace;
      assert DrawContextOk(dc) && FrameEnvOk(dc, env);
      RunAppend(t, FrameEvents(dc, pc, frame, env));
      FrameReplay(mon, dc, pc, frame, env);
      trace := trace + [ExportImages(frame.id, env.planeCount)];
      if 0 <= env.planeCount {
        Draw(frame, env, dc);
        PresentAndHandOff(frame.id, env.newFence);
        FrameTraceSplit(t, dc, pc, frame, env);
      }
      mon := Replay(Some(mon), FrameEvents(dc, pc, frame, env)).value;
      assert DrawContextOf(flags) == dc;
    }

    /**
     * The state changes of renderFrame's first-use branch: query the native
     * format, specialise for it, and on failure forget the format and push a
     * render-targets reset.
     */
    method SpecializeFor(native: PixelFormat, senv: SpecializeEnv) returns (ok: bool)
      requires !resetRequested && native != PixFmtNone && vao == 0 && shaderProgram == 0 && overlayShaderProgram == 0
      modifies this`pixelFormat, this`shaderProgram, this`overlayShaderProgram, this`shaderParams,
               this`overlayTextureLocation, this`vao, this`trace, this`resetRequested
      ensures ok <==> SpecializeSucceeds(native, senv)
      ensures trace == old(trace) + SpecializeEvents(native, senv)
      ensures pixelFormat == (if ok then native else PixFmtNone) && resetRequested == !ok
      ensures ProgramsLeft(native, senv, senv.contextCurrent, old(shaderParams), old(overlayTextureLocation))
      ensures vao == (if senv.contextCurrent && CompileSucceeds(native, senv) then senv.vao else 0)
      ensures ok ==> shaderProgram == senv.video.program && overlayShaderProgram == senv.overlay.program && vao == senv.vao
    {
      SpecializeTraceSplit(trace, native, senv);
      trace := trace + [QueryPixelFormat(native)];
      pixelFormat := native;
      ok := Specialize(senv);
      if !ok {
        pixelFormat := PixFmtNone;
        trace := trace + [PushRenderTargetsReset];
        resetRequested := true;
      } else {
        assert trace + [] == trace;
      }
    }

    /**
     * The first-use branch of renderFrame: read the native format of the
     * backend's images and specialise for it; when that fails, forget the
     * format and request a render-targets reset.
     */
    method FirstUse(native: PixelFormat, senv: SpecializeEnv) returns (ok: bool)
      requires Valid() && Specialized() && !resetRequested && pixelFormat == PixFmtNone
      requires native != PixFmtNone && GlNamesDistinct(senv)
      modifies this`pixelFormat, this`shaderProgram, this`overlayShaderProgram, this`shaderParams,
               this`overlayTextureLocation, this`vao, this`trace, this`mon, this`resetRequested
      ensures Valid() && Specialized()
      ensures ok <==> SpecializeSucceeds(native, senv)
      ensures trace == old(trace) + SpecializeEvents(native, senv)
      ensures ok ==>
        pixelFormat == native && !resetRequested && shaderProgram == senv.video.program &&
        overlayShaderProgram == senv.overlay.program && vao == senv.vao
      ensures !ok ==> pixelFormat == PixFmtNone && resetRequested
      ensures ProgramsLeft(native, senv, senv.contextCurrent, old(shaderParams), old(overlayTextureLocation))
      ensures vao == (if senv.contextCurrent && CompileSucceeds(native, senv) then senv.vao else 0)
    {
      RunAppend(trace, SpecializeEvents(native, senv));
      SpecializeReplay(mon, native, senv);
      ok := SpecializeFor(native, senv);
      mon := Replay(Some(mon), SpecializeEvents(native, senv)).value;
    }

    /**
     * renderFrame: on first use, read the native format and specialise,
     * requesting a render-targets reset if that fails; then export, draw and
     * present the frame and keep it until the next one is drawn.
     */
    method RenderFrame(frame: Frame, env: FrameEnv)
      requires Valid() && Specialized() && !resetRequested && hasContext
      requires pixelFormat == PixFmtNone ==> env.nativeFormat != PixFmtNone && GlNamesDistinct(env.specialize)
      requires FrameInputsOk(glesMajor, hasUnpackSubimage, env)
      modifies this`pixelFormat, this`shaderProgram, this`overlayShaderProgram, this`shaderParams,
               this`overlayTextureLocation, this`vao, this`lastRenderSync, this`lastFrame, this`trace, this`mon,
               this`resetRequested, overlayValid
      ensures Valid() && Specialized()
      ensures old(pixelFormat) != PixFmtNone ==>
        pixelFormat == old(pixelFormat) && shaderProgram == old(shaderProgram) &&
        overlayShaderProgram == old(overlayShaderProgram) && vao == old(vao) && !resetRequested &&
        shaderParams == old(shaderParams) && overlayTextureLocation == old(overlayTextureLocation) &&
        trace == old(trace) + FrameEvents(DrawContextOf(old(overlayValid[..])), old(PresentContextOf()), frame, env)
      ensures old(pixelFormat) == PixFmtNone ==>
        ProgramsLeft(env.nativeFormat, env.specialize, env.specialize.contextCurrent, old(shaderParams), old(overlayTextureLocation)) &&
        vao == (if env.specialize.contextCurrent && CompileSucceeds(env.nativeFormat, env.specialize) then env.specialize.vao else 0)
      ensures old(pixelFormat) == PixFmtNone && !SpecializeSucceeds(env.nativeFormat, env.specialize) ==>
        pixelFormat == PixFmtNone && resetRequested &&
        lastFrame == old(lastFrame) && lastRenderSync == old(lastRenderSync) && overlayValid[..] == old(overlayValid[..]) &&
        trace == old(trace) + SpecializeEvents(env.nativeFormat, env.specialize)
      ensures old(pixelFormat) == PixFmtNone && SpecializeSucceeds(env.nativeFormat, env.specialize) ==>
        pixelFormat == env.nativeFormat && !resetRequested &&
        shaderProgram == env.specialize.video.program && overlayShaderProgram == env.specialize.overlay.program &&
        vao == env.specialize.vao &&
        trace == old(trace) + SpecializeEvents(env.nativeFormat, env.specialize) +
          FrameEvents(DrawContextOf(old(overlayValid[..])), old(PresentContextOf()), frame, env)
      ensures !resetRequested && env.planeCount < 0 ==>
        lastFrame == old(lastFrame) && lastRenderSync == old(lastRenderSync) && overlayValid[..] == old(overlayValid[..])
      ensures !resetRequested && env.planeCount >= 0 ==>
        lastFrame == Some(frame.id) && lastRenderSync == FenceAfter(blockingSwap, sync, old(lastRenderSync), env.newFence) &&
        forall i | 0 <= i < OverlayMax ::
          overlayValid[i] == OverlayValidAfter(CurrentOverlayCtx(env.drawableHeight), old(overlayValid[i]), env.overlays[i])
    {
      if pixelFormat == PixFmtNone {
        var ok := FirstUse(env.nativeFormat, env.specialize);
        if !ok {
          return;
        }
      }
      DrawFrame(frame, env);
    }

    // ---- waitToRender and testRenderFrame ----

    /**
     * waitToRender: in blocking-swap mode, wait for the previous frame's
     * fence, or for the whole pipeline when there is no fence; otherwise
     * return at once.
     */
    method WaitToRender()
      requires Valid()
      modifies this`trace
      ensures Valid()
      ensures trace == old(trace) +
        if !blockingSwap then []
        else if lastRenderSync.Some? then [WaitFence(lastRenderSync.value)]
        else [Finish]
    {
      if blockingSwap {
        if lastRenderSync.Some? {
          assert sync.clientWait;
          RunSnoc(trace, WaitFence(lastRenderSync.value));
          trace := trace + [WaitFence(lastRenderSync.value)];
        } else {
          RunSnoc(trace, Finish);
          trace := trace + [Finish];
        }
      }
    }

    /** testRenderFrame: the backend can export the frame as at least one image; the images are freed again. */
    method TestRenderFrame(frame: FrameId, planeCount: int) returns (ok: bool)
      requires Valid()
      modifies this`trace, this`mon
      ensures Valid() && mon == old(mon)
      ensures ok <==> planeCount > 0
      ensures trace == old(trace) + [ExportImages(frame, planeCount)] + (if ok then [FreeImages(frame)] else [])
    {
      RunSnoc(trace, ExportImages(frame, planeCount));
      trace := trace + [ExportImages(frame, planeCount)];
      mon := mon.(imagesHeld := planeCount > 0);
      if planeCount <= 0 {
        return false;
      }
      RunSnoc(trace, FreeImages(frame));
      trace := trace + [FreeImages(frame)];
      mon := mon.(imagesHeld := false);
      ok := true;
    }

    // ---- the destructor ----

    ghost function Snapshot(): (s: TeardownState)
      reads this`hasContext, this`lastRenderSync, this`shaderProgram, this`overlayShaderProgram, this`vao
      reads this`hasDummyRenderer, this`lastFrame, textures, overlayTextures, overlayVbos
    {
      TeardownState(hasContext, lastRenderSync, shaderProgram, overlayShaderProgram, vao,
                    textures[..], overlayTextures[..], overlayVbos[..], hasDummyRenderer, lastFrame)
    }

    /** The first deletions of the destructor: the video and overlay programs, then the vertex array. */
    method DeletePrograms()
      modifies this`trace
      ensures trace == old(trace) + ProgramDeletions(shaderProgram, overlayShaderProgram, vao)
    {
      if shaderProgram != 0 {
        trace := trace + [DeleteProgram(shaderProgram)];
      }
      if overlayShaderProgram != 0 {
        trace := trace + [DeleteProgram(overlayShaderProgram)];
      }
      if vao != 0 {
        trace := trace + [DeleteVertexArray(vao)];
      }
    }

    /** glDeleteTextures for each plane texture that was created. */
    method DeletePlaneTextures()
      modifies this`trace
      ensures trace == old(trace) + TextureDeletions(textures[..])
    {
      for i := 0 to textures.Length
        invariant trace == old(trace) + TextureDeletions(textures[..i])
      {
        if textures[i] != 0 {
          trace := trace + [DeleteTexture(textures[i])];
        }
        assert textures[..i + 1][..i] == textures[..i];
      }
      assert textures[..textures.Length] == textures[..];
    }

    /** glDeleteTextures and glDeleteBuffers for each overlay's texture and buffer that were created. */
    method DeleteOverlayObjects()
      requires Shape()
      modifies this`trace
      ensures trace == old(trace) + OverlayDeletions(overlayTextures[..], overlayVbos[..], OverlayMax)
    {
      for i := 0 to OverlayMax
        invariant trace == old(trace) + OverlayDeletions(overlayTextures[..], overlayVbos[..], i)
      {
        if overlayTextures[i] != 0 {
          trace := trace + [DeleteTexture(overlayTextures[i])];
        }
        if overlayVbos[i] != 0 {
          trace := trace + [DeleteBuffer(overlayVbos[i])];
        }
      }
    }

    /** The deletion part of the destructor: programs, vertex array, plane textures, overlay textures and buffers. */
    method DeleteObjects()
      requires Shape()
      modifies this`trace
      ensures trace == old(trace) + ObjectDeletions(Snapshot())
    {
      DeletePrograms();
      DeletePlaneTextures();
      DeleteOverlayObjects();
    }

    /** eglDestroySync for the outstanding fence, if any. */
    method ReleaseFence()
      requires SyncConsistent()
      modifies this`trace
      ensures trace == old(trace) + FenceDeletion(lastRenderSync)
    {
      if lastRenderSync.Some? {
        assert sync.destroy;
        trace := trace + [DestroyFence(lastRenderSync.value)];
      } else {
        assert trace + [] == trace;
      }
    }

    /**
     * The part of the destructor that needs the context: destroy the
     * outstanding fence, delete the GL objects, then delete the context.
     */
    method TearDownContext()
      requires Shape() && SyncConsistent()
      modifies this`trace
      ensures trace == old(trace) + ContextTeardown(Snapshot())
    {
      ContextTeardownSplit(trace, Snapshot());
      if hasContext {
        ReleaseFence();
        DeleteObjects();
        trace := trace + [DeleteContext];
      }
    }

    /**
     * ~EGLRenderer: with a context, destroy the outstanding fence and delete
     * every GL object that was created, then the context; destroy the dummy
     * renderer; free the kept frame.
     */
    method Destroy()
      requires Valid()
      modifies this`trace, this`mon
      ensures trace == old(trace) + TeardownEvents(old(Snapshot()))
      ensures Recorded() && mon == old(mon).(fence := None, retained := None)
    {
      ghost var s := Snapshot();
      TearDownContext();
      if hasDummyRenderer {
        trace := trace + [DestroyDummyRenderer];
      }
      if lastFrame.Some? {
        trace := trace + [FreeLastFrame(lastFrame.value)];
      }
      RunAppend(old(trace), TeardownEvents(s));
      TeardownReplay(mon, s);
      mon := Replay(Some(mon), TeardownEvents(s)).value;
    }
  }
}
