/** How renderOverlay uploads an overlay surface and where it places the quad. */
module OverlayLayout {
  import opened Types

  /** renderOverlay asserts SDL_PIXELFORMAT_ARGB8888 surfaces: four bytes per pixel. */
  const BytesPerPixel: nat := 4

  /** An overlay surface from the overlay manager: size in pixels and row pitch in bytes. */
  datatype Surface = Surface(w: int, h: int, pitch: int)

  /**
   * How the pixels reach glTexImage2D: GL reads the rows with a row length
   * (GLES 3 or GL_EXT_unpack_subimage), reads them as they are (tightly
   * packed rows), or they are first copied into a tightly packed buffer.
   */
  datatype UploadMode = RowLength(rowPixels: int) | TightlyPacked | Repacked

  predicate CanSetRowLength(glesMajor: int, hasUnpackSubimage: bool) {
    glesMajor >= 3 || hasUnpackSubimage
  }

  /**
   * The upload path of renderOverlay: a row length whenever GL supports one
   * (it then spans exactly one pitch), otherwise a copy exactly when the
   * rows are not tightly packed.
   */
  function ChooseUploadMode(glesMajor: int, hasUnpackSubimage: bool, s: Surface): (m: UploadMode)
    requires CanSetRowLength(glesMajor, hasUnpackSubimage) ==> s.pitch % BytesPerPixel == 0
    ensures m.RowLength? <==> CanSetRowLength(glesMajor, hasUnpackSubimage)
    ensures m.RowLength? ==> m.rowPixels * BytesPerPixel == s.pitch
    ensures m.Repacked? <==> !CanSetRowLength(glesMajor, hasUnpackSubimage) && s.pitch != s.w * BytesPerPixel
  {
    if CanSetRowLength(glesMajor, hasUnpackSubimage) then RowLength(s.pitch / BytesPerPixel)
    else if s.pitch != s.w * BytesPerPixel then Repacked
    else TightlyPacked
  }

  /**
   * The overlay's rectangle in GL window coordinates (origin bottom left):
   * the status overlay sits on the bottom edge, the debug overlay with its
   * top edge on the top of the viewport; both start at the left edge and
   * keep the surface's size.
   */
  function OverlayRect(t: OverlayType, viewportHeight: int, s: Surface): (r: Rect)
    ensures r.x == 0 && r.w == s.w && r.h == s.h
    ensures t == OverlayStatusUpdate ==> r.y == 0
    ensures t == OverlayDebug ==> r.y + r.h == viewportHeight
  {
    match t
    case OverlayStatusUpdate => Rect(0, 0, s.w, s.h)
    case OverlayDebug => Rect(0, viewportHeight - s.h, s.w, s.h)
  }
}
