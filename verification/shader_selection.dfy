/**
 * Which shader program the renderer builds for a pixel format, and how one
 * shader and one program are built from their source files, with every
 * intermediate GL object deleted on each failure path (loadAndBuildShader,
 * compileShader).
 */
module ShaderSelection {
  import opened Types
  import opened Trace

  datatype VideoShader = Nv12Shader | OpaqueShader

  /**
   * The video program for a native image format: the two-plane program for
   * NV12 and P010, the single-texture program for DRM PRIME, none otherwise.
   */
  function ShaderVariant(f: PixelFormat): (v: Option<VideoShader>)
    ensures v == Some(Nv12Shader) <==> f == PixFmtNv12 || f == PixFmtP010
    ensures v == Some(OpaqueShader) <==> f == PixFmtDrmPrime
  {
    match f
    case PixFmtNv12 => Some(Nv12Shader)
    case PixFmtP010 => Some(Nv12Shader)
    case PixFmtDrmPrime => Some(OpaqueShader)
    case _ => None
  }

  datatype ShaderFiles = ShaderFiles(vertex: ShaderFile, fragment: ShaderFile)

  function VideoShaderFiles(v: VideoShader): ShaderFiles {
    match v
    case Nv12Shader => ShaderFiles(Nv12Vert, Nv12Frag)
    case OpaqueShader => ShaderFiles(OpaqueVert, OpaqueFrag)
  }

  const OverlayShaderFiles := ShaderFiles(OverlayVert, OverlayFrag)

  /**
   * The uniforms resolved after linking, in the order of the parameter
   * slots: the conversion matrix, the offsets and the two plane samplers
   * of the two-plane program; the one sampler of the opaque program.
   */
  function UniformNames(v: VideoShader): (names: seq<Uniform>)
    ensures |names| == (if v == Nv12Shader then 4 else 1)
  {
    match v
    case Nv12Shader => [YuvMat, Offset, Plane1, Plane2]
    case OpaqueShader => [TextureSampler]
  }

  const OverlayUniformNames: seq<Uniform> := [TextureSampler]

  // ---- GL objects alive after a sequence of events ----

  function ShaderUpdate(live: set<nat>, e: Event): set<nat> {
    match e
    case CreateShader(_, s) => live + {s}
    case DeleteShader(s) => live - {s}
    case _ => live
  }

  function ProgramUpdate(live: set<nat>, e: Event): set<nat> {
    match e
    case CreateProgram(p) => live + {p}
    case DeleteProgram(p) => live - {p}
    case _ => live
  }

  /** The shader objects alive after the events, starting from `live`. */
  function ShadersAfter(live: set<nat>, t: seq<Event>): set<nat>
    decreases |t|
  {
    if t == [] then live else ShadersAfter(ShaderUpdate(live, t[0]), t[1..])
  }

  /** The program objects alive after the events, starting from `live`. */
  function ProgramsAfter(live: set<nat>, t: seq<Event>): set<nat>
    decreases |t|
  {
    if t == [] then live else ProgramsAfter(ProgramUpdate(live, t[0]), t[1..])
  }

  lemma {:induction false} AfterAppend(shaders: set<nat>, programs: set<nat>, t: seq<Event>, u: seq<Event>)
    ensures ShadersAfter(shaders, t + u) == ShadersAfter(ShadersAfter(shaders, t), u)
    ensures ProgramsAfter(programs, t + u) == ProgramsAfter(ProgramsAfter(programs, t), u)
    decreases |t|
  {
    if t == [] {
      assert t + u == u;
    } else {
      assert (t + u)[0] == t[0];
      assert (t + u)[1..] == t[1..] + u;
      AfterAppend(ShaderUpdate(shaders, t[0]), ProgramUpdate(programs, t[0]), t[1..], u);
    }
  }

  /** Program events about other names do not disturb the programs already alive. */
  lemma {:induction false} ProgramsShift(live: set<nat>, others: set<nat>, t: seq<Event>)
    requires forall e | e in t :: (e.CreateProgram? || e.DeleteProgram?) ==> e.program !in live
    ensures ProgramsAfter(live + others, t) == live + ProgramsAfter(others, t)
    decreases |t|
  {
    if t != [] {
      assert t[0] in t;
      assert ProgramUpdate(live + others, t[0]) == live + ProgramUpdate(others, t[0]);
      forall e | e in t[1..] ensures (e.CreateProgram? || e.DeleteProgram?) ==> e.program !in live {
        assert e in t;
      }
      ProgramsShift(live, ProgramUpdate(others, t[0]), t[1..]);
    }
  }

  /** What GL reports while building one shader object. */
  datatype ShaderBuild = ShaderBuild(
    created: nat,        // the name glCreateShader returned, 0 on failure
    sourceRead: bool,    // the shader file was read and is not empty
    compiled: bool)      // GL_COMPILE_STATUS

  predicate Builds(b: ShaderBuild) {
    b.created != 0 && b.sourceRead && b.compiled
  }

  /** A shader or program name, 0 on failure, with the GL events that produced it. */
  datatype Built = Built(handle: nat, events: seq<Event>)

  /**
   * loadAndBuildShader: the compiled shader's name when creation, reading
   * and compilation all succeed, and 0 otherwise.
   */
  function LoadAndBuildShader(stage: ShaderStage, file: ShaderFile, b: ShaderBuild): (r: Built)
    ensures r.handle != 0 <==> Builds(b)
    ensures r.handle != 0 ==> r.handle == b.created
    ensures r.events != [] ==> r.events[0] == CreateShader(stage, b.created)
    ensures forall e | e in r.events :: !e.CreateShader? || e == CreateShader(stage, b.created)
    ensures forall e | e in r.events :: Quiet(e)
  {
    var s := b.created;
    if s == 0 then
      Built(0, [])
    else if !b.sourceRead then
      Built(0, [CreateShader(stage, s), DeleteShader(s)])
    else if !b.compiled then
      Built(0, [CreateShader(stage, s), CompileShaderSource(s, file), DeleteShader(s)])
    else
      Built(s, [CreateShader(stage, s), CompileShaderSource(s, file)])
  }

  lemma AfterOne(shaders: set<nat>, programs: set<nat>, e: Event)
    ensures ShadersAfter(shaders, [e]) == ShaderUpdate(shaders, e)
    ensures ProgramsAfter(programs, [e]) == ProgramUpdate(programs, e)
  {
    assert [e][1..] == [];
  }

  /** The events of `t` then `u` one at a time: `AfterAppend` specialised to a single event. */
  lemma AfterSnoc(shaders: set<nat>, programs: set<nat>, t: seq<Event>, e: Event)
    ensures ShadersAfter(shaders, t + [e]) == ShaderUpdate(ShadersAfter(shaders, t), e)
    ensures ProgramsAfter(programs, t + [e]) == ProgramUpdate(ProgramsAfter(programs, t), e)
  {
    AfterAppend(shaders, programs, t, [e]);
    AfterOne(ShadersAfter(shaders, t), ProgramsAfter(programs, t), e);
  }

  /**
   * A shader object created on a failure path of loadAndBuildShader is
   * deleted before it returns: only a successful build leaves a new shader
   * object alive, and no program object is touched.
   */
  lemma {:induction false} LoadAndBuildLeavesOnlyHandle(stage: ShaderStage, file: ShaderFile, b: ShaderBuild,
                                                         shaders: set<nat>, programs: set<nat>)
    requires b.created !in shaders
    ensures var r := LoadAndBuildShader(stage, file, b);
      ShadersAfter(shaders, r.events) == shaders + (if r.handle != 0 then {r.handle} else {}) &&
      ProgramsAfter(programs, r.events) == programs
  {
    var s := b.created;
    var c := CreateShader(stage, s);
    var k := CompileShaderSource(s, file);
    var d := DeleteShader(s);
    AfterOne(shaders, programs, c);
    if s == 0 {
    } else if !b.sourceRead {
      assert [c] + [d] == [c, d];
      AfterSnoc(shaders, programs, [c], d);
    } else if !b.compiled {
      assert [c] + [k] == [c, k];
      assert [c, k] + [d] == [c, k, d];
      AfterSnoc(shaders, programs, [c], k);
      AfterSnoc(shaders, programs, [c, k], d);
    } else {
      assert [c] + [k] == [c, k];
      AfterSnoc(shaders, programs, [c], k);
    }
  }

  /** What GL reports while building one program. */
  datatype ProgramBuild = ProgramBuild(
    vertex: ShaderBuild,
    fragment: ShaderBuild,
    program: nat,        // the name glCreateProgram returned, 0 on failure
    linked: bool)        // GL_LINK_STATUS

  predicate ProgramBuilds(pb: ProgramBuild) {
    Builds(pb.vertex) && Builds(pb.fragment) && pb.program != 0 && pb.linked
  }

  /** GL never hands out the name of a live object again. */
  predicate DistinctNames(pb: ProgramBuild) {
    pb.vertex.created != 0 && pb.fragment.created != 0 ==> pb.vertex.created != pb.fragment.created
  }

  /**
   * compileShader: the linked program's name when both shaders build and
   * the program links, 0 otherwise. The fragment shader is built only once
   * the vertex shader has built.
   */
  function CompileShader(files: ShaderFiles, pb: ProgramBuild): (r: Built)
    ensures r.handle != 0 <==> ProgramBuilds(pb)
    ensures r.handle != 0 ==> r.handle == pb.program
    ensures !Builds(pb.vertex) ==> forall e | e in r.events :: !(e.CreateShader? && e.stage == FragmentStage)
    ensures forall e | e in r.events :: Quiet(e)
    ensures forall e | e in r.events :: (e.CreateProgram? || e.DeleteProgram?) ==> e.program == pb.program
  {
    var vs := LoadAndBuildShader(VertexStage, files.vertex, pb.vertex);
    if vs.handle == 0 then
      Built(0, vs.events)
    else
      var fs := LoadAndBuildShader(FragmentStage, files.fragment, pb.fragment);
      var v, f := vs.handle, fs.handle;
      if f == 0 then
        Built(0, vs.events + fs.events + [DeleteShader(v)])
      else if pb.program == 0 then
        Built(0, vs.events + fs.events + [DeleteShader(f), DeleteShader(v)])
      else
        var p := pb.program;
        Built(if pb.linked then p else 0,
              vs.events + fs.events + [CreateProgram(p), LinkProgram(p, v, f)]
              + (if pb.linked then [] else [DeleteProgram(p)])
              + [DeleteShader(f), DeleteShader(v)])
  }

  /**
   * Whatever compileShader runs into, no shader object outlives the call,
   * and the only program object it leaves alive is the one it returns.
   */
  lemma {:induction false} CompileShaderLeavesOnlyProgram(files: ShaderFiles, pb: ProgramBuild)
    requires DistinctNames(pb)
    ensures var r := CompileShader(files, pb);
      ShadersAfter({}, r.events) == {} &&
      ProgramsAfter({}, r.events) == (if r.handle != 0 then {r.handle} else {})
  {
    var vs := LoadAndBuildShader(VertexStage, files.vertex, pb.vertex);
    LoadAndBuildLeavesOnlyHandle(VertexStage, files.vertex, pb.vertex, {}, {});
    if vs.handle != 0 {
      var fs := LoadAndBuildShader(FragmentStage, files.fragment, pb.fragment);
      var v, f := vs.handle, fs.handle;
      LoadAndBuildLeavesOnlyHandle(FragmentStage, files.fragment, pb.fragment, {v}, {});
      assert ShadersAfter({}, vs.events) == {v};
      AfterAppend({}, {}, vs.events, fs.events);
      var t0 := vs.events + fs.events;
      if f == 0 {
        AfterSnoc({}, {}, t0, DeleteShader(v));
      } else if pb.program == 0 {
        AfterSnoc({}, {}, t0, DeleteShader(f));
        AfterSnoc({}, {}, t0 + [DeleteShader(f)], DeleteShader(v));
        assert {v} + {f} - {f} == {v};
        assert t0 + [DeleteShader(f)] + [DeleteShader(v)] == CompileShader(files, pb).events;
      } else {
        var p := pb.program;
        var t1 := t0 + [CreateProgram(p)];
        var t2 := t1 + [LinkProgram(p, v, f)];
        var t3 := t2 + (if pb.linked then [] else [DeleteProgram(p)]);
        var t4 := t3 + [DeleteShader(f)];
        AfterSnoc({}, {}, t0, CreateProgram(p));
        AfterSnoc({}, {}, t1, LinkProgram(p, v, f));
        if !pb.linked {
          AfterSnoc({}, {}, t2, DeleteProgram(p));
        } else {
          assert t3 == t2;
        }
        AfterSnoc({}, {}, t3, DeleteShader(f));
        AfterSnoc({}, {}, t4, DeleteShader(v));
        assert {v} + {f} - {f} == {v};
        assert t2 == t0 + [CreateProgram(p), LinkProgram(p, v, f)];
        assert t4 + [DeleteShader(v)] == CompileShader(files, pb).events;
      }
    }
  }
}
