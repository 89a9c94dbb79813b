/** The selection field: a drop-down whose value is picked from a list shown in
    a picker, with an optional "-" row for fields that are not required, and
    its date variant, whose picker shows days. The date variant is the same
    class with `isDateDropDown` set; its members are `SetSelectedDate`,
    `RefreshDateView` and the date branch of `LoadView`.

    Two index spaces meet here: the picker's rows, and the caller's indexes
    into the data source's values. For an optional field the picker has one
    more row, the "-" sentinel at row 0, so the two differ by an offset of 1. */
module DropDowns {
  import opened Options
  import opened FormInputs

  datatype Date = Date(day: int, month: int, year: int)

  /** The answers of the drop-down's data source. */
  datatype DataSource = DataSource(values: seq<string>, selectedIndex: Option<int>, isRequired: bool)

  datatype PickerType = TextPicker | DatePicker

  /** What the drop-down tells others, in order. */
  datatype DropDownEvent =
    | SelectedValue(value: string, index: int)  // to the delegate
    | DeselectedValue                           // to the delegate
    | SelectedDate(date: Date)                  // to the date delegate
    | ResignedTextField(input: FormInput)       // the current text field was told to resign
    | PickerShown                               // the picker was shown over the host screen

  /** The state the drop-down's methods change. */
  datatype View = View(
    pickerType: PickerType,
    pickerData: seq<string>,
    selectedIndex: Option<int>,
    title: string,
    currentTextField: Option<FormInput>,
    selectedDate: Option<Date>,
    events: seq<DropDownEvent>)

  /** The collaborators and settings the drop-down's methods only read. */
  datatype Config = Config(
    dataSource: Option<DataSource>,
    hasDelegate: bool,
    isDateDropDown: bool,
    hasDateDelegate: bool,
    dateFormat: string)

  /** Whether the field has the sentinel row: a data source that says the field
      is not required. (The pick callback keeps this in a local named
      `required`.) */
  predicate IsOptional(ds: Option<DataSource>)
  {
    ds.Some? && !ds.value.isRequired
  }

  function Offset(ds: Option<DataSource>): nat
  {
    if IsOptional(ds) then 1 else 0
  }

  /** The picker rows `reloadData` builds from the data source. */
  function PickerRows(ds: DataSource): (rows: seq<string>)
    ensures |rows| == |ds.values| + Offset(Some(ds))
    ensures !ds.isRequired ==> rows[0] == "-"
    ensures forall i :: 0 <= i < |ds.values| ==> rows[i + Offset(Some(ds))] == ds.values[i]
  {
    if ds.isRequired then ds.values else ["-"] + ds.values
  }

  /** How a pick of picker row `idx` showing `value` is read: the sentinel row
      of an optional field clears the value; any other row commits it, with
      the index moved into the caller's space. */
  datatype PickOutcome = Cleared | Committed(text: string, index: int)

  function ReadPick(ds: Option<DataSource>, value: string, idx: int): PickOutcome
  {
    var optional := IsOptional(ds);
    if (optional && 0 != idx) || !optional then
      Committed(value, idx - (if optional then 1 else 0))
    else
      Cleared
  }

  /** The state after the picker reports a pick. The delegate hears of it, and
      `selectedIndex` changes, only when a delegate is set. */
  function AfterPick(v: View, c: Config, value: string, idx: int): View
  {
    match ReadPick(c.dataSource, value, idx)
    case Committed(text, index) =>
      if c.hasDelegate then
        v.(title := text, events := v.events + [SelectedValue(text, index)], selectedIndex := Some(index))
      else
        v.(title := text)
    case Cleared =>
      if c.hasDelegate then
        v.(title := "", events := v.events + [DeselectedValue], selectedIndex := None)
      else
        v.(title := "")
  }

  /** The first picker row that can be re-applied as a pick. With a
      delegate, a pick of the sentinel row clears `selectedIndex`, which the
      picker then receives force-unwrapped, so that row traps. */
  function FirstReapplicableRow(ds: Option<DataSource>, hasDelegate: bool): nat
  {
    if IsOptional(ds) && hasDelegate then 1 else 0
  }

  /** The data source's selected index maps to a picker row. */
  predicate ReloadIndexInRange(c: Config)
  {
    c.dataSource.Some? && c.dataSource.value.selectedIndex.Some? ==>
      0 <= c.dataSource.value.selectedIndex.value + Offset(c.dataSource) < |PickerRows(c.dataSource.value)|
  }

  /** The state after `reloadData`: the picker gets the rows, and a selected
      index from the data source is re-applied as a pick of its row. */
  function AfterReload(v: View, c: Config): View
    requires ReloadIndexInRange(c)
  {
    match c.dataSource
    case None => v
    case Some(ds) =>
      var rows := PickerRows(ds);
      match ds.selectedIndex
      case None => v.(pickerData := rows)
      case Some(i) =>
        var raw := i + Offset(c.dataSource);
        AfterPick(v.(pickerData := rows, selectedIndex := Some(raw)), c, rows[raw], raw)
  }

  /** `AfterReload` with a data source that has a selected index. */
  lemma AfterReloadWithIndex(v: View, c: Config, ds: DataSource, i: int)
    requires c.dataSource == Some(ds) && ds.selectedIndex == Some(i)
    requires ReloadIndexInRange(c)
    ensures 0 <= i + Offset(c.dataSource) < |PickerRows(ds)|
    ensures AfterReload(v, c) ==
      AfterPick(v.(pickerData := PickerRows(ds), selectedIndex := Some(i + Offset(c.dataSource))), c,
                PickerRows(ds)[i + Offset(c.dataSource)], i + Offset(c.dataSource))
  {
  }

  /** The state after `selectedDate` is assigned: the title is refreshed only
      when the date differs from the stored one. */
  function AfterDateAssigned(v: View, c: Config, format: (Date, string) -> string, d: Date): View
  {
    if Some(d) != v.selectedDate then v.(selectedDate := Some(d), title := format(d, c.dateFormat))
    else v.(selectedDate := Some(d))
  }

  // ---------------------------------------------------------------------------
  // Properties of the index arithmetic

  /** Every row of the picker but the sentinel is read back as the data
      source's value at the caller index `row - offset`. */
  lemma PickOfRowIsValueAtCallerIndex(ds: DataSource, row: int)
    requires 0 <= row < |PickerRows(ds)|
    requires row != 0 || ds.isRequired
    ensures 0 <= row - Offset(Some(ds)) < |ds.values|
    ensures ReadPick(Some(ds), PickerRows(ds)[row], row) ==
            Committed(ds.values[row - Offset(Some(ds))], row - Offset(Some(ds)))
  {
    assert PickerRows(ds)[(row - Offset(Some(ds))) + Offset(Some(ds))] == ds.values[row - Offset(Some(ds))];
  }

  /** Round trip: re-applying the data source's index `i` on reload reports
      `values[i]` and index `i` to the delegate and leaves `selectedIndex` at
      `i`, whatever the offset. */
  lemma {:induction false} ReloadRoundTrip(v: View, c: Config, i: int)
    requires c.dataSource.Some? && c.dataSource.value.selectedIndex == Some(i)
    requires 0 <= i < |c.dataSource.value.values|
    requires c.hasDelegate
    ensures ReloadIndexInRange(c)
    ensures AfterReload(v, c) == v.(
      pickerData := PickerRows(c.dataSource.value),
      title := c.dataSource.value.values[i],
      selectedIndex := Some(i),
      events := v.events + [SelectedValue(c.dataSource.value.values[i], i)])
  {
    var ds := c.dataSource.value;
    PickOfRowIsValueAtCallerIndex(ds, i + Offset(c.dataSource));
  }

  /** Without a delegate the pick does not store the caller index, so the
      index `updateSelectedIndex` stored, in the picker's space, remains. */
  lemma ReloadWithoutDelegateKeepsPickerIndex(v: View, c: Config, i: int)
    requires c.dataSource.Some? && c.dataSource.value.selectedIndex == Some(i)
    requires 0 <= i < |c.dataSource.value.values|
    requires !c.hasDelegate
    ensures ReloadIndexInRange(c)
    ensures AfterReload(v, c).selectedIndex == Some(i + Offset(c.dataSource))
    ensures AfterReload(v, c).events == v.events
  {
  }

  /** Without a data source, reload changes nothing. */
  lemma ReloadWithoutDataSource(v: View, c: Config)
    requires c.dataSource.None?
    ensures AfterReload(v, c) == v
  {
  }

  /** On an optional field, row 0 clears the title and, with a delegate,
      reports a deselection and clears `selectedIndex`. */
  lemma SentinelPickClears(v: View, c: Config, value: string)
    requires IsOptional(c.dataSource)
    ensures AfterPick(v, c, value, 0).title == ""
    ensures c.hasDelegate ==> AfterPick(v, c, value, 0).selectedIndex.None?
    ensures c.hasDelegate ==> AfterPick(v, c, value, 0).events == v.events + [DeselectedValue]
  {
  }

  /** Any other pick shows the picked value and reports `idx - offset`. */
  lemma OtherPickCommits(v: View, c: Config, value: string, idx: int)
    requires !IsOptional(c.dataSource) || idx != 0
    ensures AfterPick(v, c, value, idx).title == value
    ensures c.hasDelegate ==> AfterPick(v, c, value, idx).selectedIndex == Some(idx - Offset(c.dataSource))
    ensures c.hasDelegate ==>
      AfterPick(v, c, value, idx).events == v.events + [SelectedValue(value, idx - Offset(c.dataSource))]
  {
  }

  /** Without a delegate a pick changes the title only. */
  lemma PickWithoutDelegateKeepsIndex(v: View, c: Config, value: string, idx: int)
    requires !c.hasDelegate
    ensures AfterPick(v, c, value, idx) == v.(title := AfterPick(v, c, value, idx).title)
  {
  }

  /** Assigning the same date twice is the same as assigning it once. */
  lemma DateAssignmentIdempotent(v: View, c: Config, format: (Date, string) -> string, d: Date)
    ensures AfterDateAssigned(AfterDateAssigned(v, c, format, d), c, format, d) == AfterDateAssigned(v, c, format, d)
  {
  }

  /** A new date shows as its formatted text; the stored date is re-assigned
      without touching the title. */
  lemma DateAssignmentRefreshes(v: View, c: Config, format: (Date, string) -> string, d: Date)
    ensures AfterDateAssigned(v, c, format, d).selectedDate == Some(d)
    ensures v.selectedDate != Some(d) ==> AfterDateAssigned(v, c, format, d).title == format(d, c.dateFormat)
    ensures v.selectedDate == Some(d) ==> AfterDateAssigned(v, c, format, d) == v
  {
  }

  // ---------------------------------------------------------------------------
  // The drop-down

  class DropDown {
    const isDateDropDown: bool
    const titleTextField: FormInput
    /** The platform's date formatter: a date and a format give a text. */
    const format: (Date, string) -> string

    var dateFormat: string
    var dataSource: Option<DataSource>
    var hasDelegate: bool
    var pickerType: PickerType
    var pickerData: seq<string>
    var currentTextField: Option<FormInput>
    var selectedIndex: Option<int>
    var events: seq<DropDownEvent>
    var selectedDate: Option<Date>
    var hasDateDelegate: bool

    function State(): View
      reads this, titleTextField
    {
      View(pickerType, pickerData, selectedIndex, titleTextField.text, currentTextField, selectedDate, events)
    }

    function Settings(): Config
      reads this
    {
      Config(dataSource, hasDelegate, isDateDropDown, hasDateDelegate, dateFormat)
    }

    constructor (isDate: bool, title: FormInput, dateFormatter: (Date, string) -> string)
      ensures isDateDropDown == isDate && titleTextField == title && format == dateFormatter
      ensures Settings() == Config(None, false, isDate, false, "dd/MM/y")
      ensures pickerType == TextPicker && pickerData == [] && selectedIndex.None?
      ensures currentTextField.None? && selectedDate.None? && events == []
    {
      isDateDropDown, titleTextField, format := isDate, title, dateFormatter;
      dateFormat := "dd/MM/y";
      dataSource, hasDelegate, hasDateDelegate := None, false, false;
      pickerType, pickerData := TextPicker, [];
      currentTextField, selectedIndex, selectedDate := None, None, None;
      events := [];
    }

    /** `pickerSelector(_:selectedValue:index:)`. The styling of the title
        dereferences the data source, so one must be set. */
    method PickerSelectedValue(value: string, idx: int)
      requires dataSource.Some?
      modifies this`selectedIndex, this`events, titleTextField`text
      ensures State() == AfterPick(old(State()), Settings(), value, idx)
    {
      var required := dataSource.Some? && !dataSource.value.isRequired;
      var offset := 0;
      if (required && 0 != idx) || !required {
        titleTextField.text := value;
        if required {
          offset := 1;
        }
        if hasDelegate {
          events := events + [SelectedValue(value, idx - offset)];
          selectedIndex := Some(idx - offset);
        }
      } else {
        ResetValue();
        if hasDelegate {
          events := events + [DeselectedValue];
          selectedIndex := None;
        }
      }
    }

    /** `resetValue`: empty the title. */
    method ResetValue()
      modifies titleTextField`text
      ensures State() == old(State()).(title := "")
    {
      titleTextField.text := "";
    }

    /** `updateSelectedIndex`: store the picker row, then report it as a pick.
        The row subscripts the picker data unchecked, and the selected index
        is then handed to the picker force-unwrapped. */
    method UpdateSelectedIndex(newIndex: int)
      requires dataSource.Some?
      requires 0 <= newIndex < |pickerData|
      requires FirstReapplicableRow(dataSource, hasDelegate) <= newIndex
      modifies this`selectedIndex, this`events, titleTextField`text
      ensures State() == AfterPick(old(State()).(selectedIndex := Some(newIndex)), Settings(),
                                   old(pickerData)[newIndex], newIndex)
    {
      selectedIndex := Some(newIndex);
      var data := pickerData;
      PickerSelectedValue(data[newIndex], newIndex);
    }

    /** The first half of `reloadData`: the picker gets the data source's
        values, with "-" inserted in front for an optional field. */
    method LoadRows(ds: DataSource) returns (offset: int)
      requires dataSource == Some(ds)
      modifies this`pickerData
      ensures pickerData == PickerRows(ds) && offset == Offset(dataSource)
    {
      var values := ds.values;
      offset := 0;
      if dataSource.Some? && !dataSource.value.isRequired {
        values := ["-"] + values;
        offset := 1;
      }
      pickerData := values;
    }

    /** `reloadData`. */
    method ReloadData()
      requires ReloadIndexInRange(Settings())
      // an optional field with a delegate cannot re-apply the sentinel row
      requires dataSource.Some? && dataSource.value.selectedIndex.Some? && !dataSource.value.isRequired && hasDelegate ==>
        dataSource.value.selectedIndex.value != -1
      modifies this`pickerData, this`selectedIndex, this`events, titleTextField`text
      ensures State() == AfterReload(old(State()), Settings())
    {
      if dataSource.Some? {
        var ds := dataSource.value;
        if ds.selectedIndex.Some? {
          ReloadWithIndex(ds, ds.selectedIndex.value);
        } else {
          var _ := LoadRows(ds);
        }
      }
    }

    /** `reloadData` when the data source has a selected index `i`. */
    method ReloadWithIndex(ds: DataSource, i: int)
      requires dataSource == Some(ds) && ds.selectedIndex == Some(i)
      requires ReloadIndexInRange(Settings())
      requires FirstReapplicableRow(dataSource, hasDelegate) <= i + Offset(dataSource)
      modifies this`pickerData, this`selectedIndex, this`events, titleTextField`text
      ensures State() == AfterReload(old(State()), Settings())
    {
      ghost var before := State();
      var offset := LoadRows(ds);
      AfterReloadWithIndex(before, Settings(), ds, i);
      UpdateSelectedIndex(i + offset);
    }

    /** `presentDropDown`: with a data source, make the current text field
        resign, then show the picker. */
    method PresentDropDown()
      modifies this`events, if dataSource.Some? && currentTextField.Some? then {currentTextField.value} else {}
      ensures dataSource.None? ==> events == old(events)
      ensures dataSource.Some? && currentTextField.None? ==> events == old(events) + [PickerShown]
      ensures dataSource.Some? && currentTextField.Some? ==>
        var textField := currentTextField.value;
        events == old(events) + [ResignedTextField(textField), PickerShown] &&
        !textField.isFirstResponder &&
        textField.log == old(textField.log) + ResignEffects(old(textField.isFirstResponder), textField.hasFormInputDelegate) &&
        textField.Settings() == old(textField.Settings()) && textField.isOwnDelegate == old(textField.isOwnDelegate)
    {
      if dataSource.Some? {
        if currentTextField.Some? {
          var textField := currentTextField.value;
          events := events + [ResignedTextField(textField)];
          textField.ResignFirstResponder();
        }
        events := events + [PickerShown];
      }
    }

    /** `textFieldBecameFirstResponder`: remember the input that took the
        keyboard, unless it is the drop-down's own title field. */
    method TextFieldBecameFirstResponder(input: FormInput)
      modifies this`currentTextField
      ensures currentTextField == if input == titleTextField then None else Some(input)
    {
      if input != titleTextField {
        currentTextField := Some(input);
      } else {
        currentTextField := None;
      }
    }

    /** `pickerSelector(_:dateSelected:)`: acts only for a date picker and a
        date; the styling of the title dereferences the data source. */
    method PickerSelectedDate(date: Option<Date>)
      requires pickerType == DatePicker && date.Some? ==> dataSource.Some?
      modifies this`events, this`selectedDate, titleTextField`text
      ensures !(old(pickerType) == DatePicker && date.Some?) ==> State() == old(State())
      ensures old(pickerType) == DatePicker && date.Some? ==>
        var shown := old(State()).(title := format(date.value, dateFormat));
        State() == if isDateDropDown && hasDateDelegate
          then AfterDateAssigned(shown.(events := shown.events + [SelectedDate(date.value)]), Settings(), format, date.value)
          else shown
    {
      if DatePicker == pickerType {
        if date.Some? {
          titleTextField.text := format(date.value, dateFormat);
          if isDateDropDown && hasDateDelegate {
            events := events + [SelectedDate(date.value)];
            SetSelectedDate(date.value);
          }
        }
      }
    }

    /** Assigning `selectedDate`, with its observer. */
    method SetSelectedDate(d: Date)
      requires isDateDropDown
      modifies this`selectedDate, titleTextField`text
      ensures State() == AfterDateAssigned(old(State()), Settings(), format, d)
    {
      var oldValue := selectedDate;
      selectedDate := Some(d);
      if selectedDate != oldValue {
        RefreshDateView();
      }
    }

    /** `refreshDateView`: show the stored date, formatted. The stored date
        is force-unwrapped, so it must be set. */
    method RefreshDateView()
      requires isDateDropDown && selectedDate.Some?
      modifies titleTextField`text
      ensures State() == old(State()).(title := format(selectedDate.value, dateFormat))
    {
      titleTextField.text := format(selectedDate.value, dateFormat);
    }

    /** `loadView`: set the picker up for text and reload; the date variant
        then switches the picker to days. */
    method LoadView()
      requires ReloadIndexInRange(Settings())
      // an optional field with a delegate cannot re-apply the sentinel row
      requires dataSource.Some? && dataSource.value.selectedIndex.Some? && !dataSource.value.isRequired && hasDelegate ==>
        dataSource.value.selectedIndex.value != -1
      modifies this`pickerType, this`pickerData, this`selectedIndex, this`events, titleTextField`text
      ensures pickerType == if isDateDropDown then DatePicker else TextPicker
      ensures State().(pickerType := TextPicker) == AfterReload(old(State()).(pickerType := TextPicker), Settings())
    {
      pickerType := TextPicker;
      ReloadData();
      if isDateDropDown {
        pickerType := DatePicker;
      }
    }
  }
}
