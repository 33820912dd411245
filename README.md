# Weight manager: record store and inline rulers

A Dafny model of the sequential logic in `script.js` of a one-page health tracker.
The page records daily weight, body-fat and muscle measurements. It keeps them as a list of
`{date, weight, fat, muscle}` records and edits them through a form. Three scrollable tick
rulers set the measurement sliders.

The model has two parts.

- **Record store** (`records.dfy`, `store.dfy`). The stored list is a `seq<Record>`, keyed by
  date. The handlers are methods of the class `HealthStore.Store`. The class also holds the
  form (date input and the three slider values), the `selectedDate` selection and the three
  button-disabled flags. The class invariant `Valid()` says that save is enabled exactly when
  nothing is selected, and update and delete exactly when something is. The list operations
  the handlers use (`some`, `find`, `findIndex`, `filter`, the import merge loop) are each a
  function that defines them. Where the handler loops, a method is proved equal to that function.
- **Rulers** (`geometry.dfy`, `ruler.dfy`, `gestures.dfy`, `decimal.dfy`). Values are whole
  numbers of tenths: the page only uses step 0.1, so the weight ruler 30–80 is
  `RulerSpec(300, 800, 1)`. Index/value conversion, tick layout and `Math.round` become exact
  integer arithmetic. Scroll offsets and the viewport centre are reals. The wired ruler is the
  class `InlineRuler.Ruler` (track children, `scrollLeft`, slider value, label text). The drag
  adapters are the class `Gestures.DragAdapter` (`down`, `sx`, `start`). JavaScript's
  `String(v)` for one-decimal numbers is `Decimal.FormatTenths`, and `Decimal.ParseTenths`
  reads that text back.

Things the code does that a reader might not expect:

- The update handler does not re-check the new date. It can create a duplicate date, and
  `Records.ReplaceFirstMayDuplicate` exhibits one.
- `if (!selectedDate)` treats the empty date like "no selection". A stored record may have an
  empty date: update can write one, and import can bring one in. Clicking such a row enables
  the update and delete buttons, but both handlers then do nothing.
- `.replace(/\.0$/, '')` on a tick label never matches: `String` of a number never ends in
  ".0" (`Decimal.FormatShape`).
- A step above 2 makes `Math.round(1/step)` zero, so no tick is major
  (`RulerGeometry.MajorPeriodByStep`). The page's rulers all use step 0.1, which gives a major
  tick every 10 ticks.

- Clicking a value label (script.js:191-193) only runs `wireRuler` again for that ruler.
- A corrupt stored list makes `JSON.parse` in `getData` (script.js:20) throw. Nothing catches
  this on page load or in the row-click, save, update and delete handlers. The import handler
  calls `getData` inside its `try` (script.js:85-86), so there it ends in the import-failure alert.

## Model

| member | source | states |
|---|---|---|
| Records.IndexOf | script.js:66 | `findIndex`: -1 exactly when the date is absent, else the first index carrying it |
| Records.HasDate | script.js:60 | definition of `some(d => d.date === date)` (also the merge test at line 86): some index carries the date; `ContainsDate` is proved equal to it, the `Merge` definition tests it, and the `Save`, `IndexOf` and `MergeFirstWins` contracts are stated with it |
| Records.FirstWith | script.js:52 | definition of `find`: the record at `IndexOf`, or none; its laws are `FirstWithSpec` and `MergeFirstWins` |
| Records.Without | script.js:72 | definition of `filter(d => d.date !== selectedDate)`; its laws are `WithoutCounts`, `WithoutKeepsOrder`, `WithoutRemovesDate` |
| Records.ReplaceFirst | script.js:66-67 | same length; when the date is present the record at its first index becomes the new record, and every other index is untouched |
| Records.Merge | script.js:86 | definition of the merge: each imported record is appended when its date is not yet in the list built so far; its laws are the `Merge*` lemmas |
| Records.FindIndex | script.js:66 | the search loop returns exactly that first index, or -1 |
| Records.ContainsDate | script.js:60 | the `some` loop returns true exactly when a record carries the date |
| Records.Filter | script.js:72 | the `filter` loop returns exactly `Without(s, d)` |
| Records.MergeInto | script.js:86 | the import `forEach`/`push` loop returns exactly the merge `Merge(cur, imported)` |
| Records.FirstWithSpec | script.js:52 | `find` yields a record exactly when the date is present, and that record is the first one in the list with the date |
| Records.AppendKeepsUnique | script.js:59-61 | appending a record whose date is absent keeps dates unique |
| Records.WithoutCounts | script.js:72 | filtering keeps every record of another date with its multiplicity and drops every record of the removed date |
| Records.WithoutKeepsOrder | script.js:72 | the filtered list is a subsequence of the original: relative order is kept |
| Records.WithoutRemovesDate | script.js:72 | no record of the removed date remains, and unique dates stay unique |
| Records.WithoutUnique | script.js:72 | filtering a list with unique dates leaves unique dates, all drawn from the original |
| Records.ReplaceFirstKeepsUnique | script.js:66-67 | replacing the first record of a date keeps uniqueness when the new date is that date or absent |
| Records.ReplaceFirstMayDuplicate | script.js:66-67 | some unique list and update produce a duplicate date: uniqueness is not guaranteed |
| Records.MergeExtends | script.js:86 | the merge result starts with the current list, unchanged and in order |
| Records.MergeSources | script.js:86 | every merged record comes from the current list or the import |
| Records.MergeKeepsUnique | script.js:86 | merging into a list with unique dates leaves unique dates: duplicates inside the import are dropped |
| Records.MergeFirstWins | script.js:86 | after the merge, the record found for a date is the current one if the date was present, otherwise the first imported one |
| HealthStore.Store.constructor | script.js:118-123 | page start: the stored list is loaded and the form is reset |
| HealthStore.Store.ResetForm | script.js:36-41 | empty date, sliders 60/25/30, no selection, update and delete disabled, save enabled, records untouched |
| HealthStore.Store.ClickRow | script.js:50-55 | a click off any row, or on a date no longer stored, changes nothing; otherwise the first record of that date fills the form and is selected |
| HealthStore.Store.HasSelection | script.js:66 | definition of the negation of `!selectedDate` (also at line 72): a selection exists and is not the empty date; `Delete` is a no-op exactly when it is false; `Update` is also a no-op when the selected date is no longer stored |
| HealthStore.Store.FormRecord | script.js:61 | definition of the record literal `{date, weight:+weightSlider.value, …}` built from the form (also at line 67); `Save` appends it and `Update` stores it at the selected index |
| HealthStore.Store.Save | script.js:58-63 | empty date and duplicate date each change nothing and report their outcome; otherwise the form's record is appended and the form is reset; unique dates stay unique |
| HealthStore.Store.Update | script.js:65-69 | without a selection, or with its date no longer stored, nothing changes; otherwise only the first record of the selected date becomes the form's record and the form is reset |
| HealthStore.Store.Delete | script.js:71-74 | without a selection nothing changes; otherwise every record of the selected date is removed, the rest keep their order, and the form is reset |
| HealthStore.Store.Import | script.js:83-88 | a non-array import changes nothing and fails; an array is merged; selection and form are untouched |
| Decimal.FormatTenths | script.js:135 | definition of `String(v)` for one-decimal values (also the label text at lines 146 and 151); see `FormatParseRoundTrip`, `FormatShape` |
| Decimal.ParseTenths | script.js:146 | definition of `parseFloat` on that text; see `FormatParseRoundTrip` |
| Decimal.FormatParseRoundTrip | script.js:146-151 | the text `String(v)` writes for a one-decimal value reads back as that value |
| Decimal.FormatShape | script.js:135 | the text never ends in ".0", and holds a "." exactly when the tenths digit is non-zero |
| RulerGeometry.Round | script.js:149 | `Math.round(x)` lies within half of `x`, halves rounding up |
| RulerGeometry.ValueAt | script.js:131 | definition of `+(min + i*step).toFixed(1)` in tenths (also line 150); its laws are `ValueIndexRoundTrip` and `TickCountExact` |
| RulerGeometry.ToIndex | script.js:144 | `toIndex(v)` is an index whose tick value is within half a step of `v`, halves going up; no clamp |
| RulerGeometry.TickTotal | script.js:129 | definition of `Math.round((max-min)/step)`; see `TickCountExact` |
| RulerGeometry.TickCount | script.js:130 | definition of the number of loop passes `i = 0..total` (none when `total < 0`); see `TickCountExact`, `PageRulerTicks` |
| RulerGeometry.MajorPeriod | script.js:132 | definition of `Math.round(1/step)`; see `MajorPeriodByStep` |
| RulerGeometry.IsMajor | script.js:132 | definition of `i % Math.round(1/step) === 0`, false for a zero period; see `TenthStepMajors` |
| RulerGeometry.OffsetFor | script.js:145 | the offset `i*stepPx - center`, from which `(offset + center)/stepPx` recovers `i` exactly |
| RulerGeometry.IndexAt | script.js:149 | the index read back is one whose offset lies within half a step of the current offset |
| RulerGeometry.Snapped | script.js:155 | the snapped offset reads back as the same index and is at most half a step from the offset; exactly half only at a tie, which rounds up |
| RulerGeometry.RoundDiv | script.js:129 | `Math.round(p/q)` is the integer within half of `p/q`, halves rounding up |
| RulerGeometry.ValueIndexRoundTrip | script.js:144-150 | `toIndex` of the value shown for an index is that index, for every integer index, inside the ruler's range or not |
| RulerGeometry.QuantizeNearest | script.js:144-146 | a second quantization changes nothing: the tick a value maps to (the nearest, halves up, as `ToIndex`'s contract states) maps to itself |
| RulerGeometry.TickCountExact | script.js:129-130 | when the step divides the range there are `(max-min)/step + 1` ticks, the last one at `max` |
| RulerGeometry.PageRulerTicks | script.js:187-189 | the weight, fat and muscle rulers have 501, 301 and 401 ticks ending at 80, 40 and 50 |
| RulerGeometry.MajorPeriodByStep | script.js:132 | the major period is 10 at step 0.1, 1 for steps 1.1–2, and 0, so no majors, above 2 |
| RulerGeometry.TenthStepMajors | script.js:132 | at step 0.1 a tick is major exactly when its index is a multiple of 10, and on a whole-number minimum its value is whole |
| RulerGeometry.StepPx | script.js:142 | the tick pitch is 16 with fewer than two ticks, otherwise the rounded gap but never below 8 |
| RulerGeometry.Center | script.js:143 | definition of `center()`, half the track's width; the `Ruler` methods pass it to `OffsetFor`, `IndexAt` and `Snapped` in their contracts |
| RulerGeometry.IndexAtWindow | script.js:149 | an offset reads back as index `i` exactly when it lies in the half-open window [i·stepPx − center − stepPx/2, i·stepPx − center + stepPx/2) |
| RulerGeometry.OffsetRoundTrip | script.js:145-149 | reading back the offset `scrollToIndex(i)` sets gives `i`, for every step in pixels |
| RulerGeometry.SnapLaws | script.js:155 | the snap keeps the index read back, is idempotent, and moves the offset at most half a step; exactly half only at a tie, which rounds up |
| RulerGeometry.SyncReadBack | script.js:146-150 | setting the slider and reading the ruler back gives the value quantized to the grid, and the value itself on the grid |
| InlineRuler.TickAt | script.js:131-135 | definition of one tick node: value, major flag, label text; see `TickLabel` |
| InlineRuler.Ruler.StepPixels | script.js:142 | `getStepPx()` for the current children: at least 8, and 16 with fewer than two ticks |
| InlineRuler.TickLabel | script.js:131-135 | only major ticks have a label; it is the value without a trailing ".0", it reads back as the value, and on step-0.1 rulers with a whole minimum it is a whole number |
| InlineRuler.Ruler.BuildInlineRuler | script.js:128-138 | the children become exactly ticks `0..total`, tick `k` carrying its value, major flag and label |
| InlineRuler.Ruler.ScrollToIndex | script.js:145 | the scroll offset becomes `idx*stepPx - center` |
| InlineRuler.Ruler.SyncFromSlider | script.js:146 | the label shows the slider value with its unit, and the offset is that of the value's index |
| InlineRuler.Ruler.SliderInput | script.js:147 | a slider input stores the value, shows it and scrolls to its tick |
| InlineRuler.Ruler.ScrollFrame | script.js:148-153 | the slider and label take the value of the index read back from the offset |
| InlineRuler.Ruler.SnapTimer | script.js:155 | the offset becomes the snapped offset, which reads back as the same index |
| InlineRuler.Ruler.Wire | script.js:140-160 | ticks laid out as `BuildInlineRuler` states, then the initial sync from the slider |
| Gestures.DragOffset | script.js:172-181 | definition of `start - (x - sx)` (line 172) and `start + dx` (line 181); see `DragBySteps` |
| Gestures.DragAdapter.DragScroll | script.js:169-170 | a track or wrapper adapter starts released, moving content against the pointer |
| Gestures.DragAdapter.PointerDrag | script.js:178-179 | a handle adapter starts released, moving content with the pointer |
| Gestures.DragAdapter.Press | script.js:171-180 | a press records the pointer x and the current offset and sets the pressed flag (lines 171 and 180) |
| Gestures.DragAdapter.Move | script.js:172-181 | while pressed the offset becomes `start - (x - sx)`, or `start + (x - sx)` for the handle; otherwise nothing changes (lines 172 and 181) |
| Gestures.DragAdapter.Release | script.js:173-183 | release, cancel and leave clear the pressed flag (lines 173 and 182-183) |
| Gestures.DragBySteps | script.js:172-181 | dragging `k` tick widths from tick `i` lands on tick `i - k` for track drags and `i + k` for the handle |

## Left out

- `localStorage` and JSON (script.js:20-21): the stored list is the field `records`. A corrupt stored value makes `JSON.parse` throw. The throw is unhandled on page load and in the row-click, save, update and delete handlers; in the import handler it is reported as an import failure.
- File plumbing (script.js:77-89): export's Blob download, `FileReader` and `alert`. Import is modelled from an input that is already either an array of records or a failure. Imported elements are taken to be well-formed records; elements without a `date` field or of other shapes are not modelled.
- `renderList`, `renderChart` and Chart.js loading (script.js:43-48, 104-116): display only, and a foreign library behind a CDN.
- `getPeriodData` (script.js:96-102): it depends on the wall clock and on `Date` calendar arithmetic.
- The `localeCompare` sorts (script.js:44, 97): they only order rows for display and for the chart.
- Timers and animation frames (script.js:31, 148, 155): the read-back and the 60 ms snap are the explicit calls `ScrollFrame` and `SnapTimer`. Which scroll events fire, the debounce cancellation, and the feedback toasts are not modelled.
- DOM measurement and `highlightNearestLabel` (script.js:142-143, 162-167): the tick gap (`gap`) is a parameter of each call, and label highlighting is float pixel layout.
- `Ruler.clientWidth` is fixed when the ruler is built, while `center()` re-reads `trackEl.clientWidth` on every call (script.js:143). A width change between a sync and a read-back is not modelled.
- The browser may round a `scrollLeft` the code assigns. The model keeps the exact real offset; `IndexAtWindow` shows that any offset within half a step still reads back as the same index.
- Browser clamping of `scrollLeft` to the scrollable range, and of range-input values to their range and step: the browser does this, not the code. Near the ends of a ruler the real read-back can therefore differ from `IndexAt`.
- Floating point: `(max-min)/step`, `min+i*step` and `toFixed(1)` are exact in tenths. The model assumes the float results round to these exact values, as they do for the page's rulers. `FormatTenths` is `String(v)` only for such moderate values: from 1e21 up JavaScript writes an exponent form ("1e+21"), and above about 2^53/10 tenths the nearest double no longer carries the tenths digit; the page's rulers and sliders stay between 10 and 80.
- `updateSliderValues` inside the frame callback (script.js:152): it rewrites the three global labels from their sliders, the same text `ScrollFrame` already sets for the ruler's own label.
- The ruler's slider and the form's measurement are the same input element on the page. The model keeps `Ruler.slider` and `Store.weight`/`fat`/`muscle` as separate fields. So it does not show that `resetForm` (script.js:38) and a row click (script.js:53) set the slider without firing an `input` event: on the page the ruler keeps its old offset until the next scroll or slider input.
- Repeated `wireRuler` on label click (script.js:191-193): each click adds another set of listeners. `Wire` models one wiring; the duplicated listeners compute the same offsets again.
- Which element an event reaches (`closest('.data-row')`, `dataset.date`, the track/wrapper/handle wiring at script.js:157, missing elements): `ClickRow` takes the clicked row's date, or `None`.
- `touches[0].clientX` against `clientX`, and `preventDefault`, `setPointerCapture` and the `dragging` class (script.js:171-183): the pointer x is a parameter, and the rest has no effect on the model's state.
- The top-bar date string (script.js:197), the Japanese messages and CSS class toggles: cosmetic.
