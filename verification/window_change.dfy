/** Which window state changes the renderer absorbs without being re-created. */
module WindowChange {

  /** WINDOW_STATE_CHANGE_SIZE */
  const WindowStateChangeSize: bv32 := 0x01
  /** WINDOW_STATE_CHANGE_DISPLAY */
  const WindowStateChangeDisplay: bv32 := 0x02

  const AbsorbableChanges: bv32 := WindowStateChangeSize | WindowStateChangeDisplay

  predicate IsSingleBit(bit: bv32) {
    bit != 0 && bit & (bit - 1) == 0
  }

  predicate HasFlag(flags: bv32, bit: bv32) {
    flags & bit != 0
  }

  /**
   * notifyWindowChanged: the renderer keeps running across the change exactly
   * when every flag raised is a size or a display change; any other flag
   * makes the host re-create the renderer.
   */
  function NotifyWindowChanged(flags: bv32): (absorbed: bool)
    ensures absorbed <==>
      forall bit :: IsSingleBit(bit) && HasFlag(flags, bit) ==>
        bit == WindowStateChangeSize || bit == WindowStateChangeDisplay
  {
    var foreign := flags & !AbsorbableChanges;
    if foreign == 0 then
      SubMaskBits(flags);
      true
    else
      ForeignBit(flags, foreign);
      false
  }

  lemma SubMaskBits(flags: bv32)
    requires flags & !AbsorbableChanges == 0
    ensures forall bit :: IsSingleBit(bit) && HasFlag(flags, bit) ==>
      bit == WindowStateChangeSize || bit == WindowStateChangeDisplay
  {
    forall bit | IsSingleBit(bit) && HasFlag(flags, bit)
      ensures bit == WindowStateChangeSize || bit == WindowStateChangeDisplay
    {
      assert bit & !AbsorbableChanges == 0;
    }
  }

  /** The lowest foreign flag is a single bit that is neither a size nor a display change. */
  lemma ForeignBit(flags: bv32, foreign: bv32)
    requires foreign == flags & !AbsorbableChanges && foreign != 0
    ensures exists bit ::
              IsSingleBit(bit) && HasFlag(flags, bit) &&
              bit != WindowStateChangeSize && bit != WindowStateChangeDisplay
  {
    var low := foreign & (0 - foreign);
    assert IsSingleBit(low);
    assert HasFlag(flags, low);
  }

  /** A change made only of size and display flags, in any combination, is absorbed. */
  lemma SizeAndDisplayAbsorbed(size: bool, display: bool)
    ensures NotifyWindowChanged((if size then WindowStateChangeSize else 0) | (if display then WindowStateChangeDisplay else 0))
  {
  }
}
