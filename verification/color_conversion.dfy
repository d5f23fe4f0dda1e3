/**
 * Colour-conversion constants for two-plane (NV12/P010) frames: a 3x3
 * YCbCr-to-RGB matrix chosen by colorspace and range, and an offset triple
 * chosen by range. Matrices are column-major, as glUniformMatrix3fv reads
 * them without transposition: entries 0-2 scale Y, 3-5 scale Cb, 6-8 scale Cr
 * into (R, G, B).
 */
module ColorConversion {
  import opened Types

  datatype Standard = Bt601 | Bt709 | Bt2020

  predicate IsKnown(cs: Colorspace) {
    !cs.UnknownColorspace?
  }

  function StandardOf(cs: Colorspace): Standard
    requires IsKnown(cs)
  {
    match cs
    case Rec601 => Bt601
    case Rec709 => Bt709
    case Rec2020 => Bt2020
  }

  // The six tables of the source, with the coefficients it gives them.
  const Bt601Limited: seq<real> := [1.1644, 1.1644, 1.1644, 0.0, -0.3917, 2.0172, 1.5960, -0.8129, 0.0]
  const Bt601Full: seq<real> := [1.0, 1.0, 1.0, 0.0, -0.3441, 1.7720, 1.4020, -0.7141, 0.0]
  const Bt709Limited: seq<real> := [1.1644, 1.1644, 1.1644, 0.0, -0.2132, 2.1124, 1.7927, -0.5329, 0.0]
  const Bt709Full: seq<real> := [1.0, 1.0, 1.0, 0.0, -0.1873, 1.8556, 1.5748, -0.4681, 0.0]
  const Bt2020Limited: seq<real> := [1.1644, 1.1644, 1.1644, 0.0, -0.1874, 2.1418, 1.6781, -0.6505, 0.0]
  const Bt2020Full: seq<real> := [1.0, 1.0, 1.0, 0.0, -0.1646, 1.8814, 1.4746, -0.5714, 0.0]

  /** The luma weights Kr and Kb each ITU-R recommendation defines (BT.601, BT.709, BT.2020). */
  function Kr(s: Standard): real {
    match s
    case Bt601 => 0.299
    case Bt709 => 0.2126
    case Bt2020 => 0.2627
  }

  function Kb(s: Standard): real {
    match s
    case Bt601 => 0.114
    case Bt709 => 0.0722
    case Bt2020 => 0.0593
  }

  /**
   * The YCbCr-to-RGB matrix derived from Kr and Kb. Limited ("studio") range
   * stretches luma by 255/219 and chroma by 255/224.
   */
  function ReferenceMatrix(s: Standard, fullRange: bool): (m: seq<real>)
    ensures |m| == 9
  {
    var kr, kb := Kr(s), Kb(s);
    var kg := 1.0 - kr - kb;
    var y := if fullRange then 1.0 else 255.0 / 219.0;
    var c := if fullRange then 1.0 else 255.0 / 224.0;
    [y, y, y,
     0.0, -c * 2.0 * (1.0 - kb) * kb / kg, c * 2.0 * (1.0 - kb),
     c * 2.0 * (1.0 - kr), -c * 2.0 * (1.0 - kr) * kr / kg, 0.0]
  }

  /** Two coefficients agree to within 1/1000. */
  predicate Close(a: real, b: real) {
    -0.001 <= a - b <= 0.001
  }

  /**
   * getColorMatrix: the table for the frame's colorspace and range. A known
   * colorspace gets the matrix its recommendation defines (to four decimals,
   * and within 1/1000 for every entry), with a luma gain of exactly 1 at full
   * range; an unknown tag falls back to the BT.601 limited-range table.
   */
  function GetColorMatrix(cs: Colorspace, fullRange: bool): (m: seq<real>)
    ensures |m| == 9
    ensures IsKnown(cs) ==>
      forall i | 0 <= i < 9 :: Close(m[i], ReferenceMatrix(StandardOf(cs), fullRange)[i])
    ensures IsKnown(cs) && fullRange ==> m[0] == m[1] == m[2] == 1.0
    ensures !IsKnown(cs) ==> m == Bt601Limited
  {
    match cs
    case Rec601 => if fullRange then Bt601Full else Bt601Limited
    case Rec709 => if fullRange then Bt709Full else Bt709Limited
    case Rec2020 => if fullRange then Bt2020Full else Bt2020Limited
    case UnknownColorspace(_) => Bt601Limited
  }

  /**
   * getColorOffsets: the value subtracted from each sample before the matrix,
   * in normalised [0,1] units. Chroma is centred on code 128 at either range;
   * luma black is code 16 at limited range and 0 at full range.
   */
  function GetColorOffsets(fullRange: bool): (o: seq<real>)
    ensures |o| == 3
    ensures o[1] == o[2] == 128.0 / 255.0
    ensures o[0] == (if fullRange then 0.0 else 16.0 / 255.0)
  {
    if fullRange then [0.0, 128.0 / 255.0, 128.0 / 255.0]
    else [16.0 / 255.0, 128.0 / 255.0, 128.0 / 255.0]
  }

  /** The nominal luma code range of each convention: 16..235 limited, 0..255 full. */
  function NominalBlack(fullRange: bool): real { if fullRange then 0.0 else 16.0 }
  function NominalWhite(fullRange: bool): real { if fullRange then 255.0 else 235.0 }

  /**
   * The offset and the luma gain together map nominal black to 0 and nominal
   * white to 1 (within 1/1000), for every known colorspace and both ranges.
   */
  lemma LumaRangeNormalised(cs: Colorspace, fullRange: bool)
    requires IsKnown(cs)
    ensures (NominalBlack(fullRange) / 255.0 - GetColorOffsets(fullRange)[0]) * GetColorMatrix(cs, fullRange)[0] == 0.0
    ensures Close((NominalWhite(fullRange) / 255.0 - GetColorOffsets(fullRange)[0]) * GetColorMatrix(cs, fullRange)[0], 1.0)
  {
  }

  /** Exactly six tables: distinct (colorspace, range) pairs of known colorspaces get distinct matrices. */
  lemma SixDistinctTables(cs1: Colorspace, full1: bool, cs2: Colorspace, full2: bool)
    requires IsKnown(cs1) && IsKnown(cs2)
    requires GetColorMatrix(cs1, full1) == GetColorMatrix(cs2, full2)
    ensures cs1 == cs2 && full1 == full2
  {
    var m1, m2 := GetColorMatrix(cs1, full1), GetColorMatrix(cs2, full2);
    assert m1[0] == m2[0] && m1[4] == m2[4];
  }
}
