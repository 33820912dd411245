/**
 * One wired inline ruler: the track element with its tick children and its
 * horizontal scroll offset, bound to a range slider and a value label.
 * The scroll listeners run as explicit calls: `ScrollFrame` is the read-back the
 * animation-frame callback performs, `SnapTimer` the debounced snap. The pixels
 * between the first two ticks, a layout measurement, is the parameter `gap`.
 */
module InlineRuler {
  import opened Wrappers
  import opened Decimal
  import opened RulerGeometry

  /** One tick node: its value, whether it is major, and its label text ("" for minor ticks). */
  datatype Tick = Tick(value: Tenths, major: bool, caption: string)

  /** The tick `buildInlineRuler` appends at index `i`. */
  function TickAt(spec: RulerSpec, i: int): (t: Tick)
    requires spec.Valid()
  {
    var v := ValueAt(spec, i);
    var m := IsMajor(spec, i);
    Tick(v, m, if m then FormatTenths(v) else "")
  }

  /**
   * Labels: only major ticks carry one; it is the tick's value written without a
   * trailing ".0", it reads back as that value, and on the page's rulers it is a
   * whole number.
   */
  lemma TickLabel(spec: RulerSpec, i: int)
    requires spec.Valid()
    ensures TickAt(spec, i).caption != "" <==> TickAt(spec, i).major
    ensures TickAt(spec, i).major ==>
      var s := TickAt(spec, i).caption;
      ParseTenths(s) == Some(ValueAt(spec, i)) && !(|s| >= 2 && s[|s| - 2..] == ".0")
    ensures TickAt(spec, i).major && spec.step == 1 && spec.min % 10 == 0 ==>
      '.' !in TickAt(spec, i).caption
  {
    var v := ValueAt(spec, i);
    NatToStringDigits(if v < 0 then -v / 10 else v / 10);
    FormatParseRoundTrip(v);
    FormatShape(v);
    if spec.step == 1 {
      TenthStepMajors(spec, i);
    }
  }

  class Ruler {
    const spec: RulerSpec
    /** The label's unit suffix, "kg" or "%". */
    const unit: string
    /** `trackEl.clientWidth` */
    const clientWidth: nat
    /** `trackEl.children` */
    var ticks: seq<Tick>
    /** `trackEl.scrollLeft` */
    var scrollLeft: real
    /** `sliderEl.value`, in tenths */
    var slider: Tenths
    /** `labelEl.textContent` */
    var valueText: string

    constructor (spec: RulerSpec, unit: string, clientWidth: nat, slider: Tenths)
      requires spec.Valid()
      ensures this.spec == spec && this.unit == unit && this.clientWidth == clientWidth
      ensures this.slider == slider && ticks == [] && scrollLeft == 0.0 && valueText == ""
    {
      this.spec := spec;
      this.unit := unit;
      this.clientWidth := clientWidth;
      this.slider := slider;
      ticks := [];
      scrollLeft := 0.0;
      valueText := "";
    }

    /** `getStepPx()` for the current children. */
    function StepPixels(gap: real): (px: int)
      reads this
      ensures px >= 8 && (|ticks| < 2 ==> px == 16)
    {
      StepPx(|ticks|, gap)
    }

    /** `buildInlineRuler`: replace the children by ticks `0 .. total`. */
    method BuildInlineRuler()
      requires spec.Valid()
      modifies this`ticks
      ensures |ticks| == TickCount(spec)
      ensures forall k :: 0 <= k < |ticks| ==> ticks[k] == TickAt(spec, k)
    {
      ticks := [];
      var total := TickTotal(spec);
      var i := 0;
      while i <= total
        invariant 0 <= i <= (if total < 0 then 0 else total + 1)
        invariant |ticks| == i
        invariant forall k :: 0 <= k < i ==> ticks[k] == TickAt(spec, k)
      {
        ticks := ticks + [TickAt(spec, i)];
        i := i + 1;
      }
    }

    /** `scrollToIndex(idx)` */
    method ScrollToIndex(idx: int, gap: real)
      modifies this`scrollLeft
      ensures scrollLeft == OffsetFor(idx, StepPixels(gap), Center(clientWidth))
    {
      scrollLeft := OffsetFor(idx, StepPixels(gap), Center(clientWidth));
    }

    /** `syncFromSlider`: show the slider's value and scroll to its tick. */
    method SyncFromSlider(gap: real)
      requires spec.Valid()
      modifies this`scrollLeft, this`valueText
      ensures valueText == FormatTenths(slider) + unit
      ensures scrollLeft == OffsetFor(ToIndex(spec, slider), StepPixels(gap), Center(clientWidth))
    {
      valueText := FormatTenths(slider) + unit;
      ScrollToIndex(ToIndex(spec, slider), gap);
    }

    /** The slider's `input` event: the slider now holds `v`. */
    method SliderInput(v: Tenths, gap: real)
      requires spec.Valid()
      modifies this`slider, this`scrollLeft, this`valueText
      ensures slider == v && valueText == FormatTenths(v) + unit
      ensures scrollLeft == OffsetFor(ToIndex(spec, v), StepPixels(gap), Center(clientWidth))
    {
      slider := v;
      SyncFromSlider(gap);
    }

    /** The scroll listener's frame callback: read the index at the offset and push its value to the slider. */
    method ScrollFrame(gap: real)
      requires spec.Valid()
      modifies this`slider, this`valueText
      ensures slider == ValueAt(spec, IndexAt(scrollLeft, StepPixels(gap), Center(clientWidth)))
      ensures valueText == FormatTenths(slider) + unit
    {
      var idx := IndexAt(scrollLeft, StepPixels(gap), Center(clientWidth));
      var v := ValueAt(spec, idx);
      slider := v;
      valueText := FormatTenths(v) + unit;
    }

    /** The debounced snap: scroll exactly onto the tick read from the current offset. */
    method SnapTimer(gap: real)
      modifies this`scrollLeft
      ensures scrollLeft == Snapped(old(scrollLeft), StepPixels(gap), Center(clientWidth))
      ensures IndexAt(scrollLeft, StepPixels(gap), Center(clientWidth))
           == IndexAt(old(scrollLeft), StepPixels(gap), Center(clientWidth))
    {
      SnapLaws(scrollLeft, StepPixels(gap), Center(clientWidth));
      ScrollToIndex(IndexAt(scrollLeft, StepPixels(gap), Center(clientWidth)), gap);
    }

    /** `wireRuler`: lay out the ticks, then the initial `syncFromSlider`. */
    method Wire(gap: real)
      requires spec.Valid()
      modifies this`ticks, this`scrollLeft, this`valueText
      ensures |ticks| == TickCount(spec)
      ensures forall k :: 0 <= k < |ticks| ==> ticks[k] == TickAt(spec, k)
      ensures valueText == FormatTenths(slider) + unit
      ensures scrollLeft == OffsetFor(ToIndex(spec, slider), StepPixels(gap), Center(clientWidth))
    {
      BuildInlineRuler();
      SyncFromSlider(gap);
    }
  }
}
