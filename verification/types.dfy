/** Values shared by every part of the EGL renderer model. */
module Types {

  datatype Option<+T> = None | Some(value: T)

  /** Identity of a decoded frame's backing buffer (the AVFrame reference). */
  type FrameId = nat

  /** Identity of an EGL fence sync object; the absence of one (EGL_NO_SYNC) is `None`. */
  type FenceId = nat

  /** EGL_MAX_PLANES: the most planes an exported frame may have. */
  const MaxPlanes: nat := 4

  /** The overlay slots, in the order of Overlay::OverlayType. */
  datatype OverlayType = OverlayDebug | OverlayStatusUpdate

  /** Overlay::OverlayMax: the number of overlay slots. */
  const OverlayMax: nat := 2

  function OverlayIndex(t: OverlayType): (i: nat)
    ensures i < OverlayMax
  {
    match t
    case OverlayDebug => 0
    case OverlayStatusUpdate => 1
  }

  function OverlayAt(i: nat): (t: OverlayType)
    requires i < OverlayMax
    ensures OverlayIndex(t) == i
  {
    if i == 0 then OverlayDebug else OverlayStatusUpdate
  }

  /** The AVPixelFormat values the renderer distinguishes. */
  datatype PixelFormat =
    | PixFmtNone
    | PixFmtNv12
    | PixFmtP010
    | PixFmtDrmPrime
    | PixFmtOther(code: int)

  /** The colorspace tag of a frame (COLORSPACE_REC_*), or a tag the renderer does not know. */
  datatype Colorspace = Rec601 | Rec709 | Rec2020 | UnknownColorspace(tag: int)

  /** A decoded frame as the renderer sees it. */
  datatype Frame = Frame(id: FrameId, width: int, height: int, colorspace: Colorspace, fullRange: bool)

  /** An SDL rectangle in screen pixels. */
  datatype Rect = Rect(x: int, y: int, w: int, h: int)

  /** The shader sources the renderer loads: egl_nv12, egl_opaque and egl_overlay, each a .vert and a .frag. */
  datatype ShaderFile = Nv12Vert | Nv12Frag | OpaqueVert | OpaqueFrag | OverlayVert | OverlayFrag

  /** The uniform names looked up after linking: "yuvmat", "offset", "plane1", "plane2" and "uTexture". */
  datatype Uniform = YuvMat | Offset | Plane1 | Plane2 | TextureSampler
}
