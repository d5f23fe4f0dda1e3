# EGL renderer model

A Dafny model of `EGLRenderer`, the moonlight-qt renderer in
`app/streaming/video/ffmpeg-renderers/eglvid.cpp`. It draws decoded video
frames that a backend renderer exports as EGL images, using OpenGL ES
through SDL's EGL context. It covers:

- the renderer's member state as a class, `Renderer.EglRenderer`. Its fields are:
  - the lazily discovered image pixel format;
  - the video and overlay shader programs, with their uniform locations;
  - the vertex array;
  - the fence of the last presented frame;
  - the frame kept until the next one is drawn;
  - the per-overlay textures, vertex buffers and "has valid data" flags;
  - the sync entry points and the blocking-swap mode;
- every operation that acts on that state:
  - the constructor and `initialize`;
  - `compileShaders` and `specialize`;
  - `renderFrame` with its first-use branch;
  - `renderOverlay` and `notifyOverlayUpdated`;
  - `waitToRender` and `testRenderFrame`;
  - the destructor;
- the pure decisions underneath them:
  - the window-change mask;
  - the colour-conversion tables;
  - the shader variant for a pixel format;
  - the shader and program build with its clean-up paths;
  - the render-driver search;
  - the all-or-nothing choice of fence-sync entry points;
  - the swap interval and blocking-swap policy;
  - the overlay upload mode and placement.

Every GL, EGL, SDL and backend call is an abstract `Trace.Event` appended
to a ghost `trace`. Each method states exactly which events it appends, as
a function of module `FrameSpec`, and the new value of every field it
changes. The monitor state `mon` is fixed by the trace wherever a method
keeps `Valid()`.

A lifecycle monitor (`Trace.Step`) reads event sequences and rejects the
ones that break the renderer's resource rules:

- a second fence created while one is outstanding;
- a wait on, or destruction of, a fence that is not the outstanding one;
- a second pixel-format query without a reset request in between;
- a new export while exported images are still held;
- a release of the kept frame before a later frame was drawn.

`EglRenderer.Valid()` says that the trace is accepted and that the
monitor's state agrees with the fields. The constructor establishes
`Valid()`; `Initialize`, `FirstUse`, `DrawFrame`, `RenderFrame`,
`WaitToRender` and `TestRenderFrame` keep it. `Destroy` keeps the trace
accepted and leaves no fence and no kept frame in the monitor. The helpers
these methods call (such as `Specialize` and `Present`) state only their
events and the fields they change.
Lemmas in `Trace` relate the monitor to independent counting definitions:
at most one fence is ever outstanding, the format is queried once per
reset, and a frame is released only after a later draw.

Modules:

| module | contents |
|---|---|
| Types | shared values: frames, pixel formats, colorspaces, overlay slots, `MaxPlanes`, `OverlayMax` |
| WindowChange | `notifyWindowChanged` |
| ColorConversion | `getColorMatrix`, `getColorOffsets`, and an ITU-R reference the tables are checked against |
| ShaderSelection | shader variant, uniform names, `loadAndBuildShader`, `compileShader` |
| InitPolicy | render-driver search, sync entry points, swap mode |
| OverlayLayout | overlay upload mode and rectangle |
| Trace | events, the lifecycle monitor, lifecycle lemmas |
| FrameSpec | the event sequences of each operation, and what the monitor makes of them |
| Renderer | `InitEnv` and the class `EglRenderer` |

## Model

| member | source | states |
|---|---|---|
| WindowChange.NotifyWindowChanged | app/streaming/video/ffmpeg-renderers/eglvid.cpp:170-174 | the change is absorbed iff every single-bit flag raised is SIZE or DISPLAY |
| WindowChange.SubMaskBits | app/streaming/video/ffmpeg-renderers/eglvid.cpp:170-174 | a mask with no foreign bit raises only SIZE and DISPLAY bits |
| WindowChange.ForeignBit | app/streaming/video/ffmpeg-renderers/eglvid.cpp:170-174 | a mask with a foreign bit raises a single bit that is neither SIZE nor DISPLAY, so the change is refused |
| WindowChange.SizeAndDisplayAbsorbed | app/streaming/video/ffmpeg-renderers/eglvid.cpp:170-174 | any combination of size and display changes, including none, is absorbed |
| ColorConversion.GetColorMatrix | app/streaming/video/ffmpeg-renderers/eglvid.cpp:867-915 | nine coefficients; for a known colorspace every entry is within 1/1000 of the matrix derived from that recommendation's Kr and Kb at that range; full range has luma gain 1; an unknown colorspace falls back to the BT.601 limited table |
| ColorConversion.GetColorOffsets | app/streaming/video/ffmpeg-renderers/eglvid.cpp:860-865 | chroma offsets are 128/255 at both ranges; the luma offset is 0 at full range and 16/255 at limited range |
| ColorConversion.LumaRangeNormalised | app/streaming/video/ffmpeg-renderers/eglvid.cpp:860-915 | offset then luma gain map nominal black to exactly 0 and nominal white to 1 (within 1/1000), for each known colorspace and range |
| ColorConversion.SixDistinctTables | app/streaming/video/ffmpeg-renderers/eglvid.cpp:867-909 | distinct (colorspace, range) pairs of known colorspaces get distinct matrices: there are exactly six tables |
| ShaderSelection.ShaderVariant | app/streaming/video/ffmpeg-renderers/eglvid.cpp:462-487 | the two-plane program iff NV12 or P010; the opaque program iff DRM PRIME; none for any other format |
| ShaderSelection.UniformNames | app/streaming/video/ffmpeg-renderers/eglvid.cpp:468-479 | four uniforms are resolved for the two-plane program and one for the opaque program |
| ShaderSelection.LoadAndBuildShader | app/streaming/video/ffmpeg-renderers/eglvid.cpp:316-378 | returns a non-zero name iff creation, reading and compilation succeed, and that name is the created shader; creates no other shader |
| ShaderSelection.LoadAndBuildLeavesOnlyHandle | app/streaming/video/ffmpeg-renderers/eglvid.cpp:349-377 | a shader created on a failure path is deleted before return: the live shaders afterwards are the old ones plus the returned name (if any), and no program changes |
| ShaderSelection.CompileShader | app/streaming/video/ffmpeg-renderers/eglvid.cpp:380-444 | returns a non-zero name iff both shaders build and the program links, and that name is the program; the fragment shader is not built when the vertex shader fails |
| ShaderSelection.CompileShaderLeavesOnlyProgram | app/streaming/video/ffmpeg-renderers/eglvid.cpp:405-443 | whatever fails, no shader object outlives the call, and the only live program left is the returned one |
| InitPolicy.FindRenderDriver | app/streaming/video/ffmpeg-renderers/eglvid.cpp:541-558 | the index of the first driver named "opengles2", skipping drivers whose information cannot be read; the driver count when there is none |
| InitPolicy.ResolveSyncFunctions | app/streaming/video/ffmpeg-renderers/eglvid.cpp:721-743 | the KHR family when EGL_KHR_fence_sync is advertised and the core family otherwise; either a complete usable set or none at all, never both create variants; usable iff the chosen family was found complete |
| InitPolicy.ChooseSwapMode | app/streaming/video/ffmpeg-renderers/eglvid.cpp:746-775 | interval 1 iff V-Sync is on and the window is not Wayland in a Wayland build; blocking iff interval 1 and the window is not KMSDRM in a KMSDRM build |
| OverlayLayout.ChooseUploadMode | app/streaming/video/ffmpeg-renderers/eglvid.cpp:229-246 | a row length of pitch/4 pixels iff GLES 3 or GL_EXT_unpack_subimage; otherwise a repacked copy iff the rows are not tightly packed |
| OverlayLayout.OverlayRect | app/streaming/video/ffmpeg-renderers/eglvid.cpp:255-273 | the status overlay sits at y = 0, the debug overlay's top edge on the viewport's top, both at x = 0 and at the surface's size |
| Trace.FenceBalance | app/streaming/video/ffmpeg-renderers/eglvid.cpp:1223-1236 | in an accepted trace, fences created minus fences destroyed is 1 exactly when the monitor holds a fence, else 0 |
| Trace.AtMostOneFence | app/streaming/video/ffmpeg-renderers/eglvid.cpp:1223-1236 | after every prefix of an accepted trace, between 0 and 1 fences are outstanding |
| Trace.CreateOnlyWhenNoneOutstanding | app/streaming/video/ffmpeg-renderers/eglvid.cpp:1225-1236 | every fence creation in an accepted trace happens when no fence is outstanding |
| Trace.FormatQueriedOncePerReset | app/streaming/video/ffmpeg-renderers/eglvid.cpp:1077-1098 | format queries equal reset requests plus one while the format is known: once set, the format is fetched again only after a reset |
| Trace.RetainedWitness | app/streaming/video/ffmpeg-renderers/eglvid.cpp:1240-1248 | the kept frame is the one of the last retain event, and "drawn since retain" means a video draw follows that event |
| Trace.ReleaseFollowsDraw | app/streaming/video/ffmpeg-renderers/eglvid.cpp:1198-1248 | a released frame is the one last retained before it, and a video draw lies strictly between that retain and the release |
| FrameSpec.Locations | app/streaming/video/ffmpeg-renderers/eglvid.cpp:468-479 | one location per uniform name, each looked up in the given program |
| FrameSpec.CompileEvents | app/streaming/video/ffmpeg-renderers/eglvid.cpp:446-497 | the events of compileShaders are all invisible to the lifecycle monitor |
| FrameSpec.VideoProgram | app/streaming/video/ffmpeg-renderers/eglvid.cpp:462-480 | the stored video program is non-zero iff the format has a variant and that program builds |
| FrameSpec.OverlayProgram | app/streaming/video/ffmpeg-renderers/eglvid.cpp:489-492 | the stored overlay program is non-zero iff compileShaders succeeds; it is built only after the video program |
| FrameSpec.CompileLeavesOnlyStoredPrograms | app/streaming/video/ffmpeg-renderers/eglvid.cpp:446-497 | whatever fails, no shader survives compileShaders, and the live programs are exactly the non-zero stored ones |
| FrameSpec.OverlayUpload | app/streaming/video/ffmpeg-renderers/eglvid.cpp:220-293 | an upload happens iff the overlay is enabled, has a new surface and the repack allocation does not fail; it carries the upload mode and the rectangle of OverlayRect |
| FrameSpec.OverlayEvents | app/streaming/video/ffmpeg-renderers/eglvid.cpp:188-314 | the events of renderOverlay are invisible to the lifecycle monitor |
| FrameSpec.OverlayDrawnIff | app/streaming/video/ffmpeg-renderers/eglvid.cpp:215-313 | an overlay is drawn iff it is enabled and its flag is set after any upload, and then with its own texture and the overlay sampler location |
| FrameSpec.OverlayPass | app/streaming/video/ffmpeg-renderers/eglvid.cpp:1207-1210 | the overlay loop of renderFrame is invisible to the lifecycle monitor |
| FrameSpec.PlaneBindings | app/streaming/video/ffmpeg-renderers/eglvid.cpp:1117-1125 | one binding per exported plane, texture unit i to plane texture i |
| FrameSpec.FrameUsesColourTables | app/streaming/video/ffmpeg-renderers/eglvid.cpp:1117-1198 | a drawn frame binds every exported plane, sets the two-plane program's matrix and offsets from its own colorspace and range (or the opaque sampler), and draws the video quad |
| FrameSpec.SpecializeReplay | app/streaming/video/ffmpeg-renderers/eglvid.cpp:1077-1098 | first use is legal when the format is unknown; it leaves the format known on success and unknown, after a reset request, on failure |
| FrameSpec.VideoDrawReplay | app/streaming/video/ffmpeg-renderers/eglvid.cpp:1138-1204 | of the video draw, only the draw call is recorded by the monitor |
| FrameSpec.FenceDeletionReplay | app/streaming/video/ffmpeg-renderers/eglvid.cpp:105-108 | destroying the outstanding fence leaves none |
| FrameSpec.FenceReplacementReplay | app/streaming/video/ffmpeg-renderers/eglvid.cpp:1223-1236 | destroying the previous fence before creating the next is legal and leaves the new one outstanding |
| FrameSpec.BlockingSwapReplay | app/streaming/video/ffmpeg-renderers/eglvid.cpp:1214-1238 | after a blocking swap the fence is replaced iff the wait entry point exists, and kept otherwise |
| FrameSpec.PresentReplay | app/streaming/video/ffmpeg-renderers/eglvid.cpp:1212-1238 | presenting is legal and leaves the fence that FenceAfter names; non-blocking mode never touches fences |
| FrameSpec.HandOffReplay | app/streaming/video/ffmpeg-renderers/eglvid.cpp:1240-1248 | once the frame is drawn, freeing its images, releasing the previous frame and keeping this one is legal and leaves this frame kept with no images held |
| FrameSpec.DrawReplay | app/streaming/video/ffmpeg-renderers/eglvid.cpp:1117-1210 | binding, drawing and the overlays record only that a frame was drawn |
| FrameSpec.FinishReplay | app/streaming/video/ffmpeg-renderers/eglvid.cpp:1212-1248 | presenting and handing off a drawn frame is legal and leaves the new fence and this frame kept |
| FrameSpec.FrameReplay | app/streaming/video/ffmpeg-renderers/eglvid.cpp:1101-1248 | a frame is legal from any state agreeing with the renderer; a failed export changes nothing, otherwise the frame leaves FenceAfter's fence, this frame kept and no images held |
| FrameSpec.Configured | app/streaming/video/ffmpeg-renderers/eglvid.cpp:800-828 | one configuration per texture name, in order |
| FrameSpec.TextureDeletions | app/streaming/video/ffmpeg-renderers/eglvid.cpp:119-123 | plane-texture deletions are invisible to the monitor |
| FrameSpec.OverlayDeletions | app/streaming/video/ffmpeg-renderers/eglvid.cpp:124-131 | overlay texture and buffer deletions are invisible to the monitor |
| FrameSpec.ProgramDeletions | app/streaming/video/ffmpeg-renderers/eglvid.cpp:109-118 | program and vertex-array deletions are invisible to the monitor |
| FrameSpec.ObjectDeletions | app/streaming/video/ffmpeg-renderers/eglvid.cpp:109-131 | all object deletions of the destructor are invisible to the monitor |
| FrameSpec.ObjectDeletionsOnlyDelete | app/streaming/video/ffmpeg-renderers/eglvid.cpp:109-131 | the object deletions delete programs, vertex arrays, textures and buffers only |
| FrameSpec.GlTeardownReplay | app/streaming/video/ffmpeg-renderers/eglvid.cpp:102-133 | the GL part of the destructor destroys the outstanding fence and changes nothing else the monitor watches |
| FrameSpec.TeardownReplay | app/streaming/video/ffmpeg-renderers/eglvid.cpp:100-139 | the destructor is legal from any state agreeing with the renderer and ends with no fence and no frame kept |
| FrameSpec.TextureDeletionsExact | app/streaming/video/ffmpeg-renderers/eglvid.cpp:119-123 | an event is a plane-texture deletion iff it deletes a non-zero plane texture name |
| FrameSpec.OverlayDeletionsExact | app/streaming/video/ffmpeg-renderers/eglvid.cpp:124-131 | an event is an overlay deletion iff it deletes a non-zero overlay texture or buffer name |
| FrameSpec.TeardownDeletesOnlyHeld | app/streaming/video/ffmpeg-renderers/eglvid.cpp:105-131 | every deletion names a non-zero object the renderer holds, and happens only with a context |
| FrameSpec.TeardownDeletesAllHeld | app/streaming/video/ffmpeg-renderers/eglvid.cpp:105-131 | with a context, the outstanding fence and every non-zero program, vertex array, plane texture, overlay texture and overlay buffer are deleted |
| FrameSpec.TeardownEndsEverything | app/streaming/video/ffmpeg-renderers/eglvid.cpp:102-139 | the context is deleted iff there is one, the dummy renderer is destroyed iff there is one, and the kept frame is freed |
| Renderer.EglRenderer.constructor | app/streaming/video/ffmpeg-renderers/eglvid.cpp:60-98 | no format, no programs, no context, no fence, no kept frame, zero names and cleared overlay flags; the empty trace is accepted |
| Renderer.EglRenderer.OpenContext | app/streaming/video/ffmpeg-renderers/eglvid.cpp:499-675 | succeeds iff every SDL step up to readable GL strings succeeds; the dummy renderer and the context exist iff their steps were reached and succeeded; "no software support" is reported exactly for the SDL-level failures; the GL version and unpack-subimage support are read on success and unchanged otherwise |
| Renderer.EglRenderer.CreatePlaneTextures | app/streaming/video/ffmpeg-renderers/eglvid.cpp:800-818 | stores the generated plane textures and configures each in order |
| Renderer.EglRenderer.CreateOverlayObjects | app/streaming/video/ffmpeg-renderers/eglvid.cpp:820-830 | stores the generated overlay buffers and textures and configures each texture in order |
| Renderer.EglRenderer.CreateGlObjects | app/streaming/video/ffmpeg-renderers/eglvid.cpp:800-830 | both set-up loops, keeping the trace accepted |
| Renderer.EglRenderer.Initialize | app/streaming/video/ffmpeg-renderers/eglvid.cpp:499-858 | keeps Valid(); succeeds iff every step succeeds and GL reports no error; the GL version and unpack-subimage support are read once GL is reached, otherwise unchanged; once the swap set-up is reached, the sync functions, swap interval and blocking mode are the InitPolicy choices, otherwise all three are unchanged; the textures and buffers are created, with their configuration events, iff their entry points resolve, and otherwise the arrays and the trace are unchanged |
| Renderer.EglRenderer.CompileShaders | app/streaming/video/ffmpeg-renderers/eglvid.cpp:446-497 | succeeds iff the format has a variant and both programs build; whatever the outcome, stores the programs VideoProgram and OverlayProgram name (0 when not built), looks up the variant's uniforms once the video program is built and the overlay texture uniform once the overlay program is built, and leaves the locations of an unbuilt program unchanged (ProgramsLeft) |
| Renderer.EglRenderer.Specialize | app/streaming/video/ffmpeg-renderers/eglvid.cpp:917-1017 | succeeds iff the context is current, compileShaders succeeds and GL then reports no error; with the context current the programs and locations are as compileShaders leaves them, otherwise nothing is built; the vertex array is created iff both programs built, whether or not GL then reports an error |
| Renderer.EglRenderer.NotifyOverlayUpdated | app/streaming/video/ffmpeg-renderers/eglvid.cpp:157-168 | clears the overlay's valid flag iff the overlay is disabled; no other flag changes |
| Renderer.EglRenderer.RenderOverlay | app/streaming/video/ffmpeg-renderers/eglvid.cpp:188-314 | appends OverlayEvents and updates only this overlay's flag, to OverlayValidAfter |
| Renderer.EglRenderer.RenderOverlays | app/streaming/video/ffmpeg-renderers/eglvid.cpp:1207-1210 | renders every overlay in index order; each flag becomes OverlayValidAfter its own input |
| Renderer.EglRenderer.BindPlanes | app/streaming/video/ffmpeg-renderers/eglvid.cpp:1117-1125 | binds texture unit i to plane texture i for each exported plane |
| Renderer.EglRenderer.DrawVideoQuad | app/streaming/video/ffmpeg-renderers/eglvid.cpp:1138-1207 | clears, sets the aspect-ratio viewport, draws with the stored program, vertex array and the frame's colour parameters, then widens the viewport |
| Renderer.EglRenderer.Draw | app/streaming/video/ffmpeg-renderers/eglvid.cpp:1117-1210 | plane bindings, the video quad and the overlay pass, with the overlay flags updated as RenderOverlays states |
| Renderer.EglRenderer.Present | app/streaming/video/ffmpeg-renderers/eglvid.cpp:1212-1238 | swaps; in blocking mode clears and, when fences work, destroys the previous fence before creating the next; the stored fence becomes FenceAfter |
| Renderer.EglRenderer.HandOff | app/streaming/video/ffmpeg-renderers/eglvid.cpp:1240-1248 | frees the images, releases the previously kept frame if any, and keeps this frame |
| Renderer.EglRenderer.PresentAndHandOff | app/streaming/video/ffmpeg-renderers/eglvid.cpp:1212-1248 | present then hand off, with the fence and the kept frame updated |
| Renderer.EglRenderer.DrawFrame | app/streaming/video/ffmpeg-renderers/eglvid.cpp:1101-1248 | keeps Valid(); appends FrameEvents; a failed export changes no kept frame, fence or overlay flag; otherwise this frame is kept and the fence is FenceAfter |
| Renderer.EglRenderer.SpecializeFor | app/streaming/video/ffmpeg-renderers/eglvid.cpp:1077-1098 | appends SpecializeEvents; the format is the native one iff specialisation succeeds, and none with a reset requested otherwise; the programs, locations and vertex array are what specialize leaves |
| Renderer.EglRenderer.FirstUse | app/streaming/video/ffmpeg-renderers/eglvid.cpp:1077-1098 | keeps Valid(); queries the native format and specialises; succeeds iff specialisation does, storing the format; on failure the format returns to none and a reset is requested; in both cases the programs, uniform locations and vertex array are what specialize leaves |
| Renderer.EglRenderer.RenderFrame | app/streaming/video/ffmpeg-renderers/eglvid.cpp:1066-1249 | keeps Valid(); a known format is never queried again and the frame is drawn with the stored programs, vertex array and uniform locations, all unchanged; on first use they are what specialize leaves, the frame is drawn iff specialisation succeeds, and a failure returns before any export with a reset requested and the kept frame, fence and overlay flags unchanged; once drawn, the frame is kept, the fence is FenceAfter and each overlay flag is OverlayValidAfter its input; a failed export changes none of them |
| Renderer.EglRenderer.WaitToRender | app/streaming/video/ffmpeg-renderers/eglvid.cpp:1025-1044 | in blocking mode, waits on the stored fence or calls glFinish when there is none; nothing in non-blocking mode |
| Renderer.EglRenderer.TestRenderFrame | app/streaming/video/ffmpeg-renderers/eglvid.cpp:1251-1267 | succeeds iff the export yields a positive plane count, and frees the images only then; the monitor's state is unchanged |
| Renderer.EglRenderer.DeletePrograms | app/streaming/video/ffmpeg-renderers/eglvid.cpp:109-118 | deletes each non-zero program and the vertex array |
| Renderer.EglRenderer.DeletePlaneTextures | app/streaming/video/ffmpeg-renderers/eglvid.cpp:119-123 | deletes each non-zero plane texture in index order |
| Renderer.EglRenderer.DeleteOverlayObjects | app/streaming/video/ffmpeg-renderers/eglvid.cpp:124-131 | deletes each overlay's non-zero texture, then its non-zero buffer |
| Renderer.EglRenderer.DeleteObjects | app/streaming/video/ffmpeg-renderers/eglvid.cpp:109-131 | all of the destructor's object deletions |
| Renderer.EglRenderer.ReleaseFence | app/streaming/video/ffmpeg-renderers/eglvid.cpp:105-108 | destroys the stored fence if there is one |
| Renderer.EglRenderer.TearDownContext | app/streaming/video/ffmpeg-renderers/eglvid.cpp:102-133 | with a context: the fence, the objects, then the context; without one: nothing |
| Renderer.EglRenderer.Destroy | app/streaming/video/ffmpeg-renderers/eglvid.cpp:100-139 | appends TeardownEvents; the trace stays accepted and ends with no fence and no frame kept |

## Left out

- GL entry-point resolution through `SDL_GL_GetProcAddress` and `eglGetProcAddress` is treated as always succeeding. This includes `glGetUniformLocation` in compileShaders and the render, overlay, texture and buffer entry points. The early returns taken when a lookup fails are therefore not modelled. The exception is initialize's texture entry points, which are modelled as a boolean.
- The GL, EGL and SDL calls themselves are abstract events. Their effect on the GPU is not modelled.
- GL object names are inputs of the model. That GL hands out distinct non-zero names for live objects is an assumption (`FrameSpec.GlNamesDistinct`), not a property the model proves.
- `SDL_GL_MakeCurrent` and the context hand-off between threads are left out. So are prepareToRender, cleanupRenderContext, and the destructor's restoring of the SDL hint and the context attributes.
- isPixelFormatSupported, getPreferredPixelFormat and prepareDecoderContext only delegate to the backend or do nothing, so they are not modelled.
- The aspect-ratio scaling (`StreamUtils::scaleSourceToDestinationSurface`) and the conversion to normalised device coordinates are out of scope. The video viewport event carries the frame and drawable sizes; the overlay rectangle is in window pixels.
- Float vertex data and float precision are left out. The colour tables are exact reals with the source's coefficients.
- `SDL_ConvertPixels` repacking, shader source reading (`Path::readDataFile`), logging, and the diagnostic `glGetError` loops are left out. Only the last `glGetError` of initialize and of specialize, which decides their result, is modelled.
- The atomic writes to the overlay flags are modelled as plain updates. Concurrency between notifyOverlayUpdated and renderFrame is not modelled.
- `SDL_assert` conditions are preconditions of the methods: both programs 0 and the format set in compileShaders, no vertex array in specialize, in renderOverlay, a pitch that is a whole number of pixels whenever GL takes a row length.
- An unsupported format in compileShaders is modelled as returning false, without the `SDL_assert(false)`.
- renderFrame's branch for a format with no shader variant cannot be reached in the model, because specialisation only succeeds for a format with a variant.
- After a failed first use the renderer asks to be re-created, and the model does not use it again. Its field `resetRequested` marks this. The source would reach its assertions on a second specialisation, because programs and the vertex array may still be set.
- Renderer.EglRenderer.Initialize: the EGL extension, backend, image-target and vertex-array steps are each one boolean of `InitEnv`. The strings and extension queries behind them are not modelled.
- `EGL_MAX_PLANES` (4), `Overlay::OverlayMax` (2) with Debug at index 0, and the window-state flag values (SIZE 0x1, DISPLAY 0x2) come from headers that are not part of this model. Their values are assumed.
- Fences are created, waited on and destroyed only in blocking-swap mode, as the code does.
- ColorConversion.GetColorMatrix: the `SDL_assert(false)` on an unknown colorspace is not modelled; the function returns the BT.601 limited-range table, as a build without assertions does.
