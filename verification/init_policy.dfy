/**
 * The decisions EGLRenderer::initialize takes on its way to a usable GL
 * context: which SDL render driver hosts the dummy renderer, which EGL
 * fence-sync entry points are kept, and which swap interval and swap
 * blocking mode the renderer runs with.
 */
module InitPolicy {
  import opened Types

  // ---- Render driver search ----

  const GlesDriverName: string := "opengles2"

  /**
   * The index of the first render driver called "opengles2", skipping the
   * drivers whose information SDL cannot report (`None`); `|drivers|` when
   * there is none, which initialize treats as a failure.
   */
  method FindRenderDriver(drivers: seq<Option<string>>) returns (index: nat)
    ensures index <= |drivers|
    ensures index < |drivers| ==> drivers[index] == Some(GlesDriverName)
    ensures forall j | 0 <= j < index :: drivers[j] != Some(GlesDriverName)
  {
    index := 0;
    while index < |drivers|
      invariant index <= |drivers|
      invariant forall j | 0 <= j < index :: drivers[j] != Some(GlesDriverName)
    {
      if drivers[index] == Some(GlesDriverName) {
        return;
      }
      index := index + 1;
    }
  }

  // ---- EGL fence-sync entry points ----

  /** Which of the renderer's four sync entry points are set (non-null). */
  datatype SyncFunctions = SyncFunctions(create: bool, createKhr: bool, destroy: bool, clientWait: bool)

  const NoSync := SyncFunctions(false, false, false, false)

  /** Fences can be created, waited on and destroyed. */
  predicate Usable(s: SyncFunctions) {
    (s.create || s.createKhr) && s.destroy && s.clientWait
  }

  /** Which lookups through eglGetProcAddress returned an entry point. */
  datatype SyncLookup = SyncLookup(
    khrCreate: bool, khrDestroy: bool, khrClientWait: bool,       // eglCreateSyncKHR, eglDestroySyncKHR, eglClientWaitSyncKHR
    coreCreate: bool, coreDestroy: bool, coreClientWait: bool)    // eglCreateSync, eglDestroySync, eglClientWaitSync

  /**
   * The KHR entry points when the display advertises EGL_KHR_fence_sync and
   * the EGL 1.5 core ones otherwise; when the chosen family is incomplete
   * every entry point is cleared, so the renderer either has a full set or
   * none at all and never holds both create variants.
   */
  function ResolveSyncFunctions(hasKhrFenceSync: bool, found: SyncLookup): (s: SyncFunctions)
    ensures s == NoSync || Usable(s)
    ensures !(s.create && s.createKhr)
    ensures s.clientWait || s.destroy || s.create || s.createKhr ==> Usable(s)
    ensures hasKhrFenceSync ==> !s.create
    ensures !hasKhrFenceSync ==> !s.createKhr
    ensures Usable(s) <==>
      if hasKhrFenceSync then found.khrCreate && found.khrDestroy && found.khrClientWait
      else found.coreCreate && found.coreDestroy && found.coreClientWait
  {
    var picked :=
      if hasKhrFenceSync then SyncFunctions(false, found.khrCreate, found.khrDestroy, found.khrClientWait)
      else SyncFunctions(found.coreCreate, false, found.coreDestroy, found.coreClientWait);
    if !(picked.create || picked.createKhr) || !picked.destroy || !picked.clientWait then NoSync else picked
  }

  // ---- Swap interval and blocking swap ----

  datatype WindowSystem = Wayland | KmsDrm | X11 | OtherWindowSystem

  /** The SDL video drivers the program was built against. */
  datatype BuildConfig = BuildConfig(
    waylandDriver: bool,   // SDL_VIDEO_DRIVER_WAYLAND
    kmsdrmDriver: bool)    // SDL 2.0.15 or later with SDL_VIDEO_DRIVER_KMSDRM

  datatype SwapMode = SwapMode(interval: int, blocking: bool)

  /**
   * V-Sync asks for swap interval 1, except on a Wayland window of a
   * Wayland-enabled build, where the compositor already paces frames and a
   * blocking swap would only add latency. With interval 1 the renderer also
   * waits for each swap to finish, except under KMSDRM, which already
   * double-buffers.
   */
  function ChooseSwapMode(vsync: bool, ws: WindowSystem, build: BuildConfig): (m: SwapMode)
    ensures m.interval == 0 || m.interval == 1
    ensures m.interval == 1 <==> vsync && !(build.waylandDriver && ws == Wayland)
    ensures m.blocking <==> m.interval == 1 && !(build.kmsdrmDriver && ws == KmsDrm)
    ensures !vsync ==> m == SwapMode(0, false)
    ensures build.waylandDriver && ws == Wayland ==> m == SwapMode(0, false)
    ensures build.kmsdrmDriver && ws == KmsDrm ==> !m.blocking
    ensures vsync && (ws == X11 || ws == OtherWindowSystem) ==> m == SwapMode(1, true)
    ensures vsync && !build.waylandDriver && !build.kmsdrmDriver ==> m == SwapMode(1, true)
  {
    if vsync && !(build.waylandDriver && ws == Wayland) then
      SwapMode(1, !(build.kmsdrmDriver && ws == KmsDrm))
    else
      SwapMode(0, false)
  }
}
