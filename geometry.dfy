/**
 * The arithmetic of the inline rulers. Ruler values are held as whole numbers of
 * tenths, so a ruler from 30 to 80 in steps of 0.1 is `RulerSpec(300, 800, 1)`.
 * Scroll offsets and the viewport centre are pixel quantities and are reals;
 * `Math.round` rounds half-way cases up.
 */
module RulerGeometry {
  import opened Decimal

  /** `Math.round(x)` */
  function Round(x: real): (r: int)
    ensures r as real - 0.5 <= x < r as real + 0.5
  {
    (x + 0.5).Floor
  }

  /** `Math.round(p / q)` for integers, `q > 0`: the integer nearest `p / q`, halves going up. */
  function RoundDiv(p: int, q: int): (r: int)
    requires q > 0
    ensures 2 * q * r - q <= 2 * p < 2 * q * r + q
  {
    var m := 2 * q;
    var x := 2 * p + q;
    assert x == (x / m) * m + x % m;
    x / m
  }

  /** Rounding lands on `i` exactly when the input lies in `[i - 1/2, i + 1/2)`. */
  lemma RoundWindow(x: real, i: int)
    ensures Round(x) == i <==> i as real - 0.5 <= x < i as real + 0.5
  {
  }

  lemma RoundDivUnique(p: int, q: int, i: int)
    requires q > 0
    requires 2 * q * i - q <= 2 * p < 2 * q * i + q
    ensures RoundDiv(p, q) == i
  {
    var r := RoundDiv(p, q);
    MulAtLeast(q, r - i);
    MulAtLeast(q, i - r);
    assert q * (r - i) == q * r - q * i;
    assert q * (i - r) == q * i - q * r;
    assert 2 * q * r == 2 * (q * r) && 2 * q * i == 2 * (q * i);
  }

  lemma MulAtLeast(q: int, k: int)
    requires q > 0
    ensures k >= 1 ==> q * k >= q
  {
  }

  /** The range, in tenths, and the step between ticks, in tenths. */
  datatype RulerSpec = RulerSpec(min: Tenths, max: Tenths, step: Tenths)
  {
    predicate Valid() { step > 0 }
  }

  /** The three rulers the page wires: weight 30–80 kg, fat 10–40 %, muscle 10–50 kg, step 0.1. */
  const WEIGHT_RULER := RulerSpec(300, 800, 1)
  const FAT_RULER := RulerSpec(100, 400, 1)
  const MUSCLE_RULER := RulerSpec(100, 500, 1)

  /** `total = Math.round((max - min) / step)`, the index of the last tick. */
  function TickTotal(spec: RulerSpec): int
    requires spec.Valid()
  {
    RoundDiv(spec.max - spec.min, spec.step)
  }

  /** The number of ticks `for (i = 0; i <= total; i++)` lays out. */
  function TickCount(spec: RulerSpec): nat
    requires spec.Valid()
  {
    if TickTotal(spec) < 0 then 0 else TickTotal(spec) + 1
  }

  /** `+(min + i * step).toFixed(1)`: the value tick `i` stands for. */
  function ValueAt(spec: RulerSpec, i: int): Tenths
  {
    spec.min + i * spec.step
  }

  /** `toIndex(v) = Math.round((v - min) / step)`; no clamping is applied. */
  function ToIndex(spec: RulerSpec, v: Tenths): (r: int)
    requires spec.Valid()
    ensures -spec.step <= 2 * (v - ValueAt(spec, r)) < spec.step
  {
    var r := RoundDiv(v - spec.min, spec.step);
    assert 2 * spec.step * r == 2 * (r * spec.step);
    r
  }

  /** `Math.round(1 / step)`, with `step` in tenths. */
  function MajorPeriod(step: Tenths): int
    requires step > 0
  {
    RoundDiv(10, step)
  }

  /** `i % Math.round(1 / step) === 0`; a zero period gives `NaN`, which is never `0`. */
  predicate IsMajor(spec: RulerSpec, i: int)
    requires spec.Valid()
  {
    var p := MajorPeriod(spec.step);
    p != 0 && i % p == 0
  }

  // ---------------------------------------------------------------------------
  // Values and indices

  /** Value/index round trip: reading the index of tick `i`'s value gives `i`, for every `i`. */
  lemma ValueIndexRoundTrip(spec: RulerSpec, i: int)
    requires spec.Valid()
    ensures ToIndex(spec, ValueAt(spec, i)) == i
  {
    RoundDivUnique(i * spec.step, spec.step, i);
  }

  /**
   * Quantization is idempotent: the tick a value goes to (the nearest one, halves up,
   * by `ToIndex`'s contract) is quantized to itself.
   */
  lemma QuantizeNearest(spec: RulerSpec, v: Tenths)
    requires spec.Valid()
    ensures ToIndex(spec, ValueAt(spec, ToIndex(spec, v))) == ToIndex(spec, v)
  {
    var k := ToIndex(spec, v);
    assert 2 * spec.step * k == 2 * (k * spec.step);
    ValueIndexRoundTrip(spec, k);
  }

  /** When the step divides the range, the ruler has `(max - min) / step + 1` ticks. */
  lemma TickCountExact(spec: RulerSpec)
    requires spec.Valid() && spec.min <= spec.max
    requires (spec.max - spec.min) % spec.step == 0
    ensures TickCount(spec) == (spec.max - spec.min) / spec.step + 1
    ensures ValueAt(spec, TickCount(spec) - 1) == spec.max
  {
    var n := (spec.max - spec.min) / spec.step;
    assert spec.max - spec.min == n * spec.step;
    RoundDivUnique(spec.max - spec.min, spec.step, n);
  }

  /** The page's rulers have 501, 301 and 401 ticks, the last one at the range's top. */
  lemma PageRulerTicks()
    ensures TickCount(WEIGHT_RULER) == 501 && ValueAt(WEIGHT_RULER, 500) == 800
    ensures TickCount(FAT_RULER) == 301 && ValueAt(FAT_RULER, 300) == 400
    ensures TickCount(MUSCLE_RULER) == 401 && ValueAt(MUSCLE_RULER, 400) == 500
  {
  }

  /**
   * The major-tick period by step: every 10th tick at step 0.1, every `round(1/step)`-th
   * below 1.1, every tick from 1.1 to 2, and none beyond 2 (the period rounds to 0).
   */
  lemma MajorPeriodByStep(step: Tenths)
    requires step > 0
    ensures step == 1 ==> MajorPeriod(step) == 10
    ensures step <= 20 ==> MajorPeriod(step) >= 1
    ensures 11 <= step <= 20 ==> MajorPeriod(step) == 1
    ensures step > 20 ==> MajorPeriod(step) == 0
  {
    var p := MajorPeriod(step);
    if step == 1 {
      RoundDivUnique(10, 1, 10);
    } else if step <= 20 {
      if 11 <= step {
        RoundDivUnique(10, step, 1);
      }
    } else {
      RoundDivUnique(10, step, 0);
    }
  }

  /** At step 0.1 a tick is major exactly when its index is a multiple of 10. */
  lemma TenthStepMajors(spec: RulerSpec, i: int)
    requires spec.Valid() && spec.step == 1
    ensures IsMajor(spec, i) <==> i % 10 == 0
    ensures IsMajor(spec, i) && spec.min % 10 == 0 ==> ValueAt(spec, i) % 10 == 0
  {
    MajorPeriodByStep(1);
  }

  // ---------------------------------------------------------------------------
  // Scroll geometry

  /** `getStepPx`: 16 with fewer than two ticks, else the rounded tick gap, at least 8. */
  function StepPx(tickCount: nat, gap: real): (px: int)
    ensures px >= 8
    ensures tickCount < 2 ==> px == 16
    ensures tickCount >= 2 && Round(gap) >= 8 ==> px == Round(gap)
    ensures tickCount >= 2 && Round(gap) < 8 ==> px == 8
  {
    if tickCount < 2 then 16 else if Round(gap) < 8 then 8 else Round(gap)
  }

  /** `center = clientWidth / 2` */
  function Center(clientWidth: nat): real
  {
    clientWidth as real / 2.0
  }

  /** `scrollToIndex(i)`: the scroll offset `i * stepPx - center`. */
  function OffsetFor(i: int, px: int, center: real): (r: real)
    ensures px > 0 ==> (r + center) / px as real == i as real
  {
    (i * px) as real - center
  }

  /** `Math.round((scrollLeft + center) / stepPx)`: the index read back from an offset. */
  function IndexAt(offset: real, px: int, center: real): (r: int)
    requires px > 0
    ensures OffsetFor(r, px, center) - px as real / 2.0 <= offset < OffsetFor(r, px, center) + px as real / 2.0
  {
    var p := px as real;
    var y := offset + center;
    var r := Round(y / p);
    RoundWindow(y / p, r);
    ScaleBelow(r as real - 0.5, y, p);
    ScaleBelow(r as real + 0.5, y, p);
    assert (r * px) as real == r as real * p;
    assert (r as real - 0.5) * p == r as real * p - p / 2.0;
    assert (r as real + 0.5) * p == r as real * p + p / 2.0;
    r
  }

  /**
   * The snap: scroll to the index read back from the current offset. It moves the
   * offset by at most half a step; exactly half only at a tie, which rounds up.
   */
  function Snapped(offset: real, px: int, center: real): (r: real)
    requires px > 0
    ensures IndexAt(r, px, center) == IndexAt(offset, px, center)
    ensures -(px as real) / 2.0 <= offset - r < px as real / 2.0
  {
    OffsetRoundTrip(IndexAt(offset, px, center), px, center);
    OffsetFor(IndexAt(offset, px, center), px, center)
  }

  lemma ScaleBelow(a: real, y: real, p: real)
    requires p > 0.0
    ensures a <= y / p <==> a * p <= y
    ensures y / p < a <==> y < a * p
  {
    var x := y / p;
    assert x * p == y;
    if a <= x {
      assert a * p <= x * p;
    }
    if x < a {
      assert x * p < a * p;
    }
  }

  /** An offset reads back as index `i` exactly when it lies in the half-open half-step window around `i`'s offset. */
  lemma IndexAtWindow(offset: real, px: int, center: real, i: int)
    requires px > 0
    ensures IndexAt(offset, px, center) == i <==>
      OffsetFor(i, px, center) - px as real / 2.0 <= offset < OffsetFor(i, px, center) + px as real / 2.0
  {
    var p := px as real;
    var y := offset + center;
    var x := y / p;
    assert (i * px) as real == i as real * p;
    RoundWindow(x, i);
    ScaleBelow(i as real - 0.5, y, p);
    ScaleBelow(i as real + 0.5, y, p);
    assert (i as real - 0.5) * p == i as real * p - p / 2.0;
    assert (i as real + 0.5) * p == i as real * p + p / 2.0;
  }

  /** Snap round trip: the offset of index `i` reads back as `i`, whatever the step in pixels. */
  lemma OffsetRoundTrip(i: int, px: int, center: real)
    requires px > 0
    ensures IndexAt(OffsetFor(i, px, center), px, center) == i
  {
    IndexAtWindow(OffsetFor(i, px, center), px, center, i);
  }

  /**
   * Snapping keeps the index read from the offset, is idempotent, and moves the
   * offset by at most half a step (exactly half only at a tie, which rounds up).
   */
  lemma SnapLaws(offset: real, px: int, center: real)
    requires px > 0
    ensures IndexAt(Snapped(offset, px, center), px, center) == IndexAt(offset, px, center)
    ensures Snapped(Snapped(offset, px, center), px, center) == Snapped(offset, px, center)
    ensures -(px as real) / 2.0 <= offset - Snapped(offset, px, center) < px as real / 2.0
  {
    var i := IndexAt(offset, px, center);
    OffsetRoundTrip(i, px, center);
    IndexAtWindow(offset, px, center, i);
  }

  /**
   * Setting the slider to `v` and reading the ruler back yields `v` quantized to the
   * tick grid, and `v` itself when it lies on the grid — inside the range or not.
   */
  lemma SyncReadBack(spec: RulerSpec, v: Tenths, px: int, center: real)
    requires spec.Valid() && px > 0
    ensures ValueAt(spec, IndexAt(OffsetFor(ToIndex(spec, v), px, center), px, center))
         == ValueAt(spec, ToIndex(spec, v))
    ensures (v - spec.min) % spec.step == 0 ==>
      ValueAt(spec, IndexAt(OffsetFor(ToIndex(spec, v), px, center), px, center)) == v
  {
    OffsetRoundTrip(ToIndex(spec, v), px, center);
    if (v - spec.min) % spec.step == 0 {
      var k := (v - spec.min) / spec.step;
      assert v == ValueAt(spec, k);
      ValueIndexRoundTrip(spec, k);
    }
  }
}
