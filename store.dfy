/**
 * The page's record store and form: the stored record list, the date input and
 * the three measurement sliders, the `selectedDate` selection and the disabled
 * flags of the save, update and delete buttons. Each handler is a method.
 */
module HealthStore {
  import opened Wrappers
  import opened Decimal
  import opened Records

  /** Slider positions `resetForm` restores: 60 kg, 25 %, 30 kg (in tenths). */
  const DEFAULT_WEIGHT: Tenths := 600
  const DEFAULT_FAT: Tenths := 250
  const DEFAULT_MUSCLE: Tenths := 300

  /** The feedback the save handler shows. */
  datatype SaveOutcome = Saved | MissingDate | DuplicateDate

  class Store {
    /** The record list kept under the `healthData` storage key. */
    var records: seq<Record>
    /** `selectedDate`; `None` is `null`. */
    var selected: Option<Date>
    /** The form: date input and the weight, fat and muscle slider values. */
    var dateInput: Date
    var weight: Tenths
    var fat: Tenths
    var muscle: Tenths
    var saveDisabled: bool
    var updateDisabled: bool
    var deleteDisabled: bool

    /** The buttons follow the selection: save is enabled exactly when nothing is selected. */
    ghost predicate Valid()
      reads this
    {
      updateDisabled == deleteDisabled == !saveDisabled
      && (selected.None? <==> updateDisabled)
    }

    /** `if (!selectedDate)` fails for `null` and for the empty date alike. */
    predicate HasSelection()
      reads this
    {
      selected.Some? && selected.value != ""
    }

    /** The record the form describes. */
    function FormRecord(): (r: Record)
      reads this
    {
      Record(dateInput, weight, fat, muscle)
    }

    /** The state `resetForm` leaves the form in. */
    ghost predicate FormIsReset()
      reads this
    {
      dateInput == "" && weight == DEFAULT_WEIGHT && fat == DEFAULT_FAT && muscle == DEFAULT_MUSCLE
      && selected == None && updateDisabled && deleteDisabled && !saveDisabled
    }

    /** Page start: the stored list is loaded and `init` resets the form. */
    constructor (stored: seq<Record>)
      ensures Valid() && FormIsReset() && records == stored
    {
      records := stored;
      dateInput, weight, fat, muscle := "", DEFAULT_WEIGHT, DEFAULT_FAT, DEFAULT_MUSCLE;
      selected := None;
      updateDisabled, deleteDisabled, saveDisabled := true, true, false;
    }

    /** `resetForm`: clear the form and the selection; the records are not touched. */
    method ResetForm()
      modifies this
      ensures Valid() && FormIsReset() && records == old(records)
    {
      dateInput, weight, fat, muscle := "", DEFAULT_WEIGHT, DEFAULT_FAT, DEFAULT_MUSCLE;
      selected := None;
      updateDisabled, deleteDisabled, saveDisabled := true, true, false;
    }

    /**
     * `dataList.onclick`: `row` is the date of the clicked row, `None` when the click
     * was not on a row. The first record of that date fills the form and becomes the
     * selection; with no such record nothing changes.
     */
    method ClickRow(row: Option<Date>)
      requires Valid()
      modifies this
      ensures Valid() && records == old(records)
      ensures row.None? || FirstWith(records, row.value).None? ==> unchanged(this)
      ensures row.Some? && FirstWith(records, row.value).Some? ==>
        var item := FirstWith(records, row.value).value;
        FormRecord() == item && selected == Some(row.value)
        && !updateDisabled && !deleteDisabled && saveDisabled
    {
      if row.None? {
        return;
      }
      var idx := FindIndex(records, row.value);
      if idx < 0 {
        return;
      }
      var item := records[idx];
      dateInput, weight, fat, muscle := item.date, item.weight, item.fat, item.muscle;
      selected := Some(item.date);
      updateDisabled, deleteDisabled, saveDisabled := false, false, true;
    }

    /**
     * `saveBtn.onclick`: refuses an empty date and a date already stored; otherwise
     * appends the form's record and resets the form.
     */
    method Save() returns (outcome: SaveOutcome)
      requires Valid()
      modifies this
      ensures Valid()
      ensures outcome == if old(dateInput) == "" then MissingDate
                         else if HasDate(old(records), old(dateInput)) then DuplicateDate
                         else Saved
      ensures outcome != Saved ==> unchanged(this)
      ensures outcome == Saved ==> records == old(records) + [old(FormRecord())] && FormIsReset()
      ensures DatesUnique(old(records)) ==> DatesUnique(records)
    {
      if dateInput == "" {
        return MissingDate;
      }
      var present := ContainsDate(records, dateInput);
      if present {
        return DuplicateDate;
      }
      var rec := FormRecord();
      if DatesUnique(records) { AppendKeepsUnique(records, rec); }
      records := records + [rec];
      ResetForm();
      outcome := Saved;
    }

    /**
     * `updateBtn.onclick`: with a selection whose date is still stored, the first
     * record of that date becomes the form's record (its date is not re-checked) and
     * the form is reset; otherwise nothing changes.
     */
    method Update()
      requires Valid()
      modifies this
      ensures Valid()
      ensures !old(HasSelection()) || !HasDate(old(records), old(selected).value) ==> unchanged(this)
      ensures old(HasSelection()) && HasDate(old(records), old(selected).value) ==>
        records == ReplaceFirst(old(records), old(selected).value, old(FormRecord()))
        && FormIsReset()
    {
      if !HasSelection() {
        return;
      }
      var idx := FindIndex(records, selected.value);
      if idx < 0 {
        return;
      }
      records := records[idx := FormRecord()];
      ResetForm();
    }

    /**
     * `deleteBtn.onclick`: with a selection, every record of the selected date is
     * removed and the form is reset; with none, nothing changes.
     */
    method Delete()
      requires Valid()
      modifies this
      ensures Valid()
      ensures !old(HasSelection()) ==> unchanged(this)
      ensures old(HasSelection()) ==>
        records == Without(old(records), old(selected).value) && FormIsReset()
      ensures old(HasSelection()) ==> !HasDate(records, old(selected).value)
      ensures DatesUnique(old(records)) ==> DatesUnique(records)
    {
      if !HasSelection() {
        return;
      }
      WithoutRemovesDate(records, selected.value);
      records := Filter(records, selected.value);
      ResetForm();
    }

    /**
     * The import reader's `onload`: `imported` is the parsed file when it is an array,
     * `None` when it is not an array or did not parse. A failure changes nothing; an
     * array is merged in. The form and the selection are left as they are.
     */
    method Import(imported: Option<seq<Record>>) returns (ok: bool)
      requires Valid()
      modifies this
      ensures Valid()
      ensures ok == imported.Some?
      ensures !ok ==> unchanged(this)
      ensures ok ==> records == Merge(old(records), imported.value)
      ensures ok ==> selected == old(selected) && FormRecord() == old(FormRecord())
      ensures DatesUnique(old(records)) ==> DatesUnique(records)
    {
      if imported.None? {
        return false;
      }
      if DatesUnique(records) { MergeKeepsUnique(records, imported.value); }
      records := MergeInto(records, imported.value);
      ok := true;
    }
  }
}
