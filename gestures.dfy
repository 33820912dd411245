/**
 * The drag adapters. `addDragScroll` (on the track and on its wrapper) moves the
 * content against the pointer; `addPointerDrag` (on the centre handle) moves it
 * with the pointer. Each keeps the closure state `down`, `sx` and `start`.
 */
module Gestures {
  import opened RulerGeometry
  import opened InlineRuler

  /** The offset a move to `x` sets: `start - (x - sx)`, or `start + (x - sx)` for the handle. */
  function DragOffset(start: real, sx: real, x: real, withPointer: bool): real
  {
    if withPointer then start + (x - sx) else start - (x - sx)
  }

  class DragAdapter {
    const target: Ruler
    /** True for `addPointerDrag`, false for `addDragScroll`. */
    const withPointer: bool
    var down: bool
    var sx: real
    var start: real

    /** `addDragScroll(source, target)` */
    constructor DragScroll(target: Ruler)
      ensures this.target == target && !withPointer
      ensures !down && sx == 0.0 && start == 0.0
    {
      this.target := target;
      withPointer := false;
      down, sx, start := false, 0.0, 0.0;
    }

    /** `addPointerDrag(pointer, target)` */
    constructor PointerDrag(target: Ruler)
      ensures this.target == target && withPointer
      ensures !down && sx == 0.0 && start == 0.0
    {
      this.target := target;
      withPointer := true;
      down, sx, start := false, 0.0, 0.0;
    }

    /** Press (`mousedown`, `touchstart`, `pointerdown`) at pointer x `x`. */
    method Press(x: real)
      modifies this`down, this`sx, this`start
      ensures down && sx == x && start == target.scrollLeft
    {
      down := true;
      sx := x;
      start := target.scrollLeft;
    }

    /** Move (`mousemove`, `touchmove`, `pointermove`) to pointer x `x`: scrolls only while pressed. */
    method Move(x: real)
      modifies target`scrollLeft
      ensures down ==> target.scrollLeft == DragOffset(start, sx, x, withPointer)
      ensures !down ==> target.scrollLeft == old(target.scrollLeft)
    {
      if down {
        target.scrollLeft := DragOffset(start, sx, x, withPointer);
      }
    }

    /** Release (`mouseup`, `touchend`, `pointerup`, `pointercancel`, `pointerleave`). */
    method Release()
      modifies this`down
      ensures !down
    {
      down := false;
    }
  }

  /**
   * Dragging by exactly `k` tick widths from a rest on tick `i` lands on tick
   * `i - k` for the track and wrapper drags and on `i + k` for the handle.
   */
  lemma DragBySteps(i: int, k: int, px: int, center: real, sx: real, withPointer: bool)
    requires px > 0
    ensures IndexAt(DragOffset(OffsetFor(i, px, center), sx, sx + (k * px) as real, withPointer), px, center)
         == if withPointer then i + k else i - k
  {
    var j := if withPointer then i + k else i - k;
    assert DragOffset(OffsetFor(i, px, center), sx, sx + (k * px) as real, withPointer)
        == OffsetFor(j, px, center);
    OffsetRoundTrip(j, px, center);
  }
}
