# iOSFormUtils in Dafny

A model of the form-handling core of iOSFormUtils, a UIKit helper library, with proofs of what it promises. The model covers:

- **Field validation** (`validated_form_input.dfy`, `validated_form.dfy`).
  - The validation kinds: no validation, not blank, email, French zip code, French phone number and date.
  - One hand-written recogniser per regular expression the library hands to `NSPredicate ... MATCHES`, each matched against the whole text.
  - `validateFormat`, which turns a field's kind and text into a verdict and, on failure, makes one error-mode callback.
  - `ValidatedForm.validate`, which checks the inputs in order and stops at the first failure.
- **Inputs** (`form_input.dfy`, `text_input.dfy`).
  - `FormInput` and its older twin `TextInput` are classes.
  - Their editing callbacks append, in order, the delegate calls, notification posts and resignations they make to an effect log.
  - `TextInput` also carries its character-limit filter.
- **The selection field** (`drop_down.dfy`).
  - `DropDown` and its date variant are one class, with `isDateDropDown` marking the date variant.
  - The picker rows carry a `"-"` sentinel for optional fields, so the picker's row indexes and the data source's value indexes differ by an offset of 0 or 1.
  - Each method is proved against a function on the view state (`AfterPick`, `AfterReload`, `AfterDateAssigned`), and lemmas about those functions state the round trips.
- **The form** (`form.dfy`).
  - `Form` is a class holding the scroll state, which is shrunk for the keyboard and restored afterwards, and the inputs with their return keys.
  - Focus moves along the chain given by the form delegate. That chain is a finite sequence of inputs: `getFirstInput` is its head and `getNextInput` answers the element after the current input.

The notification bus is synchronous. A post is an entry in the posting object's log, and the form's handlers are methods that the caller invokes directly. `FocusInput` delivers an input's begin-editing callbacks to the form, which is what becoming first responder sets off.

Some source paths crash, because they force-unwrap nil or index out of range. Those paths become preconditions:

- `DropDown.PickerSelectedValue` and `DropDown.PickerSelectedDate` need a data source. They style the title with its colour and font (`iOSFormUtils/DropDown.swift:166`, `:193`).
- `DropDown.UpdateSelectedIndex` needs an index within the picker rows (`iOSFormUtils/DropDown.swift:104`). `DropDown.ReloadData` needs the data source's index, once shifted by the offset, to be one of those rows.
- `DropDown.UpdateSelectedIndex` cannot re-apply the `"-"` row of an optional field that has a delegate. That pick clears `selectedIndex` (`iOSFormUtils/DropDown.swift:181`), and the cleared index is then passed to the picker force-unwrapped (`iOSFormUtils/DropDown.swift:105`). So `DropDown.ReloadData` and `DropDown.LoadView` need a data-source index other than -1 for such a field.
- `DropDown.RefreshDateView` needs a stored date, because it unwraps it (`iOSFormUtils/DateDropDown.swift:30`).
- `Form.TextFieldReturnedFired` needs a current input once a form delegate is set, because it passes that input to `getNextInput` (`iOSFormUtils/Form.swift:221`, reached first through `isLastInput`).

`minimizeScrollingZone` sets the frame directly and applies the unclamped offset `input.y - frame.height/2 + input.height/2` (`iOSFormUtils/Form.swift:141-151`). The offset is not clamped to the content's height.

## Model

| member | source | states |
|---|---|---|
| ValidatedFormInput.KindNameInjective | iOSFormUtils/ValidatedFormInput.swift:21-23 | the `errorType` string passed on failure identifies the kind |
| ValidatedFormInput.EmailRecogniserCorrect | iOSFormUtils/ValidatedFormInput.swift:74-77 | the deterministic email recogniser (first `@`, then last `.` after it) accepts exactly the texts that split as `[A-Z0-9a-z._%+-]+ @ [A-Za-z0-9.-]+ . [A-Za-z]{2,4}` |
| ValidatedFormInput.EmailShapeRecognised | iOSFormUtils/ValidatedFormInput.swift:74-77 | every text built from a valid local part, domain and top-level domain is accepted |
| ValidatedFormInput.EmailExamples | iOSFormUtils/ValidatedFormInput.swift:74-77 | "a@b.co" is an email; "a@b" is not |
| ValidatedFormInput.ZipCodeByDepartmentNumber | iOSFormUtils/ValidatedFormInput.swift:79-82 | a zip code is five characters: a department 01..98 read as a number, or 2A or 2B, then three digits |
| ValidatedFormInput.ZipCodeExamples | iOSFormUtils/ValidatedFormInput.swift:79-82 | "75001" and "2A001" pass; "99999" and "00123" fail |
| ValidatedFormInput.RenderedGroupsAccepted | iOSFormUtils/ValidatedFormInput.swift:90-93 | any sequence of groups, each an optional `-`, `.` or space followed by two digits, is accepted when written out |
| ValidatedFormInput.ParsedGroupsRender | iOSFormUtils/ValidatedFormInput.swift:90-93 | every accepted group text is the written-out form of the valid groups read back from it (round trip) |
| ValidatedFormInput.GroupsLength | iOSFormUtils/ValidatedFormInput.swift:90 | n groups take between 2n and 3n characters |
| ValidatedFormInput.PhoneLength | iOSFormUtils/ValidatedFormInput.swift:90-93 | an accepted phone number has 10 to 14 characters |
| ValidatedFormInput.PhoneExamples | iOSFormUtils/ValidatedFormInput.swift:90-93 | "0612345678" and "06 12.34-56 78" pass; "0012345678" and the nine-character "061234567" fail |
| ValidatedFormInput.ValidateFormat | iOSFormUtils/ValidatedFormInput.swift:66-108 | without a validation data source, or with NoValidation, the field is valid and no callback is made; the field is valid iff its kind's check accepts the text; a failure makes exactly one `didEnterErrorMode` carrying the kind's case name when a validation delegate is set, and none otherwise |
| ValidatedFormInput.AtMostOneCallback | iOSFormUtils/ValidatedFormInput.swift:100-104 | a validation makes at most one callback, and it makes one iff it fails with a delegate set |
| ValidatedFormInput.NotBlankIff | iOSFormUtils/ValidatedFormInput.swift:69-72 | a NotBlank field is valid iff its text is not empty |
| ValidatedForm.Validate | iOSFormUtils/ValidatedForm.swift:22-30 | the form is valid iff every input is (so an empty form is valid); on failure only inputs up to the first failing one are checked, that one fails, all before it pass, and the only callbacks are that input's (at most one) |
| FormInputs.NotificationNamesDistinct | iOSFormUtils/FormInput.swift:10-12 | the three notification names are pairwise different |
| FormInputs.ResignEffects | iOSFormUtils/FormInput.swift:86-90 | a resignation is logged first, and the platform's end-editing callback then tells the edition delegate iff the input was editing and a delegate is set; nothing is posted |
| FormInputs.BeginEditingEffects | iOSFormUtils/FormInput.swift:76-84 | begin-editing tells the edition delegate iff one is set and does so first, then tells the validation delegate iff one is set, and posts became-first-responder last and only then |
| FormInputs.FormInput.constructor | iOSFormUtils/FormInput.swift:39-42 | a new input is its own delegate, has no delegates or data source, and has made no calls |
| FormInputs.FormInput.CommonInit | iOSFormUtils/FormInput.swift:54-61 | the input becomes its own delegate and applies the custom init iff it has a data source, changing nothing else |
| FormInputs.FormInput.ResignFirstResponder | iOSFormUtils/FormInput.swift:70 | the input stops being first responder and logs the resignation followed by the end-editing effects, keeping its settings and delegate |
| FormInputs.FormInput.StopEditing | iOSFormUtils/FormInput.swift:68-71 | the resigned notification is posted before the input resigns, and the end-editing callback then runs if it was editing |
| FormInputs.FormInput.TextFieldDidBeginEditing | iOSFormUtils/FormInput.swift:76-84 | the log gains exactly the begin-editing effects, in order |
| FormInputs.FormInput.BecomeFirstResponder | iOSFormUtils/Form.swift:182 | the input becomes first responder and runs its begin-editing callbacks |
| FormInputs.FormInput.TextFieldDidEndEditing | iOSFormUtils/FormInput.swift:86-90 | only the edition delegate hears of it, and only when one is set |
| FormInputs.FormInput.TextFieldShouldReturn | iOSFormUtils/FormInput.swift:92-96 | the return is always allowed and exactly one returned notification is posted |
| TextInputs.ReplaceRange | iOSFormUtils/TextInput.swift:106 | the edit the platform asks about keeps the text before the range, inserts the replacement, keeps the text after the range and changes the length by the replacement's length minus the range's |
| TextInputs.TextInput.constructor | iOSFormUtils/TextInput.swift:40-43 | a new text input is its own delegate, has no limit and has made no calls |
| TextInputs.TextInput.CommonInit | iOSFormUtils/TextInput.swift:55-62 | the input becomes its own delegate and applies the custom init iff it has a data source |
| TextInputs.TextInput.SetCustomCharLimit | iOSFormUtils/TextInput.swift:69-71 | no value removes the limit; a value replaces it |
| TextInputs.TextInput.ResignFirstResponder | iOSFormUtils/TextInput.swift:77 | the input stops being first responder and logs the resignation followed by the end-editing effects |
| TextInputs.TextInput.StopEditing | iOSFormUtils/TextInput.swift:76-79 | the input resigns, with its end-editing callback if it was editing, before the resigned notification is posted, the reverse of `FormInput` |
| TextInputs.TextInput.TextFieldDidBeginEditing | iOSFormUtils/TextInput.swift:84-92 | the same begin-editing effects, in the same order, as `FormInput` |
| TextInputs.TextInput.TextFieldDidEndEditing | iOSFormUtils/TextInput.swift:94-98 | only the edition delegate hears of it, and only when one is set |
| TextInputs.TextInput.TextFieldShouldReturn | iOSFormUtils/TextInput.swift:100-104 | the return is always allowed and exactly one returned notification is posted |
| TextInputs.TextInput.ShouldChangeCharactersIn | iOSFormUtils/TextInput.swift:106-112 | deletions and every edit without a limit are allowed; with a limit, a non-empty replacement is allowed iff the current length is below the limit; the range plays no part |
| TextInputs.TypingKeepsWithinLimit | iOSFormUtils/TextInput.swift:107-108 | an allowed one-character edit of a text within the limit keeps it within the limit |
| TextInputs.PasteCanExceedLimit | iOSFormUtils/TextInput.swift:106-112 | the filter allows pasting "xyz" into "abcd" with limit 5, giving seven characters |
| DropDowns.PickerRows | iOSFormUtils/DropDown.swift:116-123 | the picker shows the values, preceded by "-" exactly when the field is optional, so value i sits at row i + offset |
| DropDowns.PickOfRowIsValueAtCallerIndex | iOSFormUtils/DropDown.swift:161-175 | picking any row but the sentinel commits the data source's value at `row - offset` and reports that index |
| DropDowns.ReloadRoundTrip | iOSFormUtils/DropDown.swift:124-126 | reloading with data-source index i and a delegate shows `values[i]`, reports `values[i]` and i, and leaves the selected index at i, for optional and required fields alike |
| DropDowns.ReloadWithoutDelegateKeepsPickerIndex | iOSFormUtils/DropDown.swift:172-175 | without a delegate, reload leaves the selected index in picker space (i + offset) and reports nothing |
| DropDowns.ReloadWithoutDataSource | iOSFormUtils/DropDown.swift:113-115 | without a data source, reload changes nothing |
| DropDowns.SentinelPickClears | iOSFormUtils/DropDown.swift:176-182 | on an optional field row 0 empties the title and, with a delegate, reports a deselection and clears the selected index |
| DropDowns.OtherPickCommits | iOSFormUtils/DropDown.swift:164-175 | every other pick shows the value and, with a delegate, reports and stores `idx - offset` |
| DropDowns.PickWithoutDelegateKeepsIndex | iOSFormUtils/DropDown.swift:172-182 | without a delegate a pick changes the title and nothing else |
| DropDowns.DateAssignmentIdempotent | iOSFormUtils/DateDropDown.swift:17-23 | assigning the same date twice is the same as assigning it once |
| DropDowns.DateAssignmentRefreshes | iOSFormUtils/DateDropDown.swift:17-23 | a new date refreshes the title to its formatted text; re-assigning the stored date changes nothing |
| DropDowns.DropDown.constructor | iOSFormUtils/DropDown.swift:41-53 | a new drop-down has the "dd/MM/y" format, a text picker, no data, no selection and no events |
| DropDowns.DropDown.PickerSelectedValue | iOSFormUtils/DropDown.swift:161-184 | the new view state is the pick function applied to the old one |
| DropDowns.DropDown.ResetValue | iOSFormUtils/DropDown.swift:109-111 | the title is emptied and nothing else changes |
| DropDowns.DropDown.UpdateSelectedIndex | iOSFormUtils/DropDown.swift:100-107 | the row is stored as the selected index and then read as a pick of that row's value; the sentinel row of an optional field with a delegate is excluded, as it traps |
| DropDowns.DropDown.ReloadData | iOSFormUtils/DropDown.swift:113-128 | the new view state is the reload function applied to the old one (its lemmas state the round trip); a data-source index that maps to the trapping sentinel row is excluded |
| DropDowns.DropDown.LoadRows | iOSFormUtils/DropDown.swift:116-123 | the picker data becomes the data source's values, preceded by "-" exactly when the field is optional, and the offset returned is 1 for an optional field and 0 otherwise |
| DropDowns.DropDown.ReloadWithIndex | iOSFormUtils/DropDown.swift:116-126 | with a data-source index, the rows are loaded and the index shifted by the offset is re-applied as a pick, giving the reload function's state |
| DropDowns.DropDown.PresentDropDown | iOSFormUtils/DropDown.swift:130-137 | without a data source nothing happens and no input is touched; otherwise the current text field, if any, resigns with its end-editing effects and keeps its settings, before the picker is shown |
| DropDowns.DropDown.TextFieldBecameFirstResponder | iOSFormUtils/DropDown.swift:143-151 | the posting input becomes the current text field, unless it is the drop-down's own title field, which clears it |
| DropDowns.DropDown.PickerSelectedDate | iOSFormUtils/DropDown.swift:186-204 | only a date picker and a date act: the title shows the formatted date and, on the date variant with a date delegate, the delegate is told before the date is stored |
| DropDowns.DropDown.SetSelectedDate | iOSFormUtils/DateDropDown.swift:17-23 | the new view state is the date-assignment function applied to the old one |
| DropDowns.DropDown.RefreshDateView | iOSFormUtils/DateDropDown.swift:26-35 | the title shows the stored date formatted, and nothing else changes |
| DropDowns.DropDown.LoadView | iOSFormUtils/DateDropDown.swift:37-43 | the picker reloads as a text picker, and the date variant then switches to a date picker |
| Forms.MinimizeShrinksOnce | iOSFormUtils/Form.swift:137-148 | the first minimize saves the frame and takes the keyboard height off the height, keeping x, y and width |
| Forms.MinimizeWhenShrunk | iOSFormUtils/Form.swift:137-139 | once shrunk, minimize neither shrinks again nor overwrites the saved frame |
| Forms.MinimizeCentresInput | iOSFormUtils/Form.swift:150-152 | the content offset has x 0 and puts the input's centre at the centre of the current frame, unclamped |
| Forms.ResetIdempotent | iOSFormUtils/Form.swift:158-163 | resetting twice is resetting once |
| Forms.MinimizeThenResetRestores | iOSFormUtils/Form.swift:136-163 | one or more minimizes, starting from an unshrunk state, followed by a reset restore the frame from before the first one and clear the shrunk flag |
| Forms.MinimizeAllKeepsFirstSave | iOSFormUtils/Form.swift:137-148 | after a run of minimizes from an unshrunk state the form is shrunk and the saved frame is the first one |
| Forms.MinimizeShrunkStays | iOSFormUtils/Form.swift:137-139 | a run of minimizes from a shrunk state keeps the frame, the saved frame and the flag |
| Forms.NextIn | iOSFormUtils/Form.swift:29-37 | `getNextInput` answers only for an input in the chain, and its answer is one of the inputs after the chain's head |
| Forms.NextOfKth | iOSFormUtils/Form.swift:29-37 | on a chain without repetitions, the next of the k-th input is the (k+1)-th, and the last has none |
| Forms.ActionOnReturn | iOSFormUtils/Form.swift:172-186 | a return submits iff there is no delegate or no next input, and otherwise focuses an input of the chain |
| Forms.TraversalFrom | iOSFormUtils/Form.swift:172-186 | on a chain without repetitions, returns from the k-th input focus each later input once, in order, and then submit |
| Forms.ReturnsFromFirstVisitEachOnce | iOSFormUtils/Form.swift:172-186 | on a chain without repetitions, returns from the first input focus every other input once, in chain order, and submit exactly once, at the end |
| Forms.Form.constructor | iOSFormUtils/Form.swift:67-70 | a new form is unshrunk, has no saved frame, the 216 keyboard height, no delegate, no current input and no inputs |
| Forms.Form.CommonInit | iOSFormUtils/Form.swift:112-114 | with a delegate, the current input becomes the delegate's first input |
| Forms.Form.HandleInputsReturnKeys | iOSFormUtils/Form.swift:120-130 | the last input gets Go and every other input Next, and nothing else about the inputs changes |
| Forms.Form.SetInputs | iOSFormUtils/Form.swift:60-64 | assigning the inputs re-labels every return key |
| Forms.Form.AddSubview | iOSFormUtils/Form.swift:77-84 | a form input gets an edition delegate and is appended, with the return keys re-labelled; every input keeps its other settings, its log, its focus and its own-delegate flag; any other view touches no input |
| Forms.Form.MinimizeScrollingZone | iOSFormUtils/Form.swift:136-153 | the new scroll state is the minimize function applied to the old one |
| Forms.Form.ResetScrollingZone | iOSFormUtils/Form.swift:158-163 | the new scroll state is the reset function applied to the old one |
| Forms.Form.KeyboardShown | iOSFormUtils/Form.swift:193-201 | the keyboard height is replaced and nothing else in the scroll state changes |
| Forms.Form.TextFieldBecameFirstResponder | iOSFormUtils/Form.swift:208-212 | the posting input becomes the current input |
| Forms.Form.DidEnterEditionMode | iOSFormUtils/Form.swift:232-236 | the form shrinks and scrolls for the input |
| Forms.Form.IsLastInput | iOSFormUtils/Form.swift:219-227 | without a delegate every input is last; an answer of not-last means a delegate is set, the current input is in its chain, and the chain has more than one input |
| Forms.Form.NextAction | iOSFormUtils/Form.swift:219-227 | a return submits iff the current input is the last one |
| Forms.Form.IsLastInputIgnoresArgument | iOSFormUtils/Form.swift:219-227 | `isLastInput` gives the same answer for every argument |
| Forms.Form.FocusInput | iOSFormUtils/Form.swift:181-183 | the input becomes first responder, keeping its settings, and runs its begin-editing callbacks; the form shrinks for it iff it has an edition delegate, and it becomes the current input |
| Forms.Form.TextFieldReturnedFired | iOSFormUtils/Form.swift:172-186 | on the last input, the returning input posts resigned and resigns with its end-editing effects, the scroll state is reset, and `goReturnKeyTouched` is sent once when a delegate is set; otherwise the returning input, if editing and not the next one, resigns, then the next input becomes first responder, with its callbacks run, and becomes the current input, and nothing is submitted; both inputs keep their settings and their own-delegate flag |

## Left out

- `iOSFormUtils/ImagePicker.swift` is not part of this model. It presents platform pickers and alerts, and its only state is set from a platform callback.
- Styling is left out because it consists of platform calls: placeholders, colours, fonts, icons, picker button titles and `updatePlaceholder`, which also runs when `dataSource` is assigned.
- The notification centre is not modelled as a registry. The observer registrations in `Form.commonInit` and `DropDown.loadView` are therefore left out, and handlers are called directly.
- `dispatch_async` and the offset animation are left out. The scroll change is applied at once.
- The platform date parser and formatter are parameters: `parsesDate` for the `dd/MM/YYYY` check, and the drop-down's `format` for `dateFormat`.
- Frames and offsets are reals, not floating-point `CGFloat`. `keyboardShown` takes the keyboard height already converted to the form's space, which leaves out `convertRect`.
- The picker library's internals are left out: `showPickerOver` becomes a `PickerShown` event, and `selectRow` and the picker's own `didSelectRow` are dropped.
- The `init(coder:)` initialisers are left out. They run the same `commonInit` as `init(frame:)`.
- `Form.didExitEditionMode` is not modelled because its body is empty.
- The drop-down's `values` field is not modelled because no code reads or writes it.
- The `default` arm of the validation switch is not modelled. The kinds are exhaustive, so it cannot be reached.
- `getOrderedInputs` is not defined in the repository, so `ValidatedForm.Validate` takes the ordered inputs as a parameter. Validation sees each input as a value `Field`, and it cannot change the text.
- ValidatedFormInput.ValidateFormat: a text is a sequence of characters, so NotBlank and the patterns count code points, not the platform's grapheme clusters.
- TextInputs.TextInput.ShouldChangeCharactersIn: the current length counts code points, not the platform's grapheme clusters. The platform's range counts UTF-16 units, but the range plays no part in the decision.
- Forms.Form.TextFieldReturnedFired: the model does not run other subscribers to the became-first-responder notification, such as drop-downs updating their current text field, when the next input takes the focus. The delegate's chain is a fixed finite sequence.
- Forms.Form.HandleInputsReturnKeys: the cast of each input to a text field always succeeds, so it is not modelled.
- DropDowns.DropDown.UpdateSelectedIndex: the cast of the picker data to strings always succeeds, so it is not modelled.
- DropDowns.DropDown.SetSelectedDate: assigning nil to `selectedDate` is not modelled. The only assignment in the library stores a date.
- ValidatedFormInput.ValidateFormat: the validation data source's `validationTypeForInput` is asked twice, once for the check and once for the error name (`iOSFormUtils/ValidatedFormInput.swift:68`, `:101`). The model takes one answer, so it assumes both calls agree.
- DropDowns.DropDown.ReloadData: the data source's `isRequired` is asked once for the rows and again when a pick is read (`iOSFormUtils/DropDown.swift:118`, `:162`). The model takes one answer for both, so it assumes they agree within one call.
- Forms.Form.FocusInput: an input's edition delegate is a flag, so the model does not record which form is the delegate. Any input with an edition delegate shrinks this form.
- FormInputs.FormInput.BecomeFirstResponder: the model runs the begin-editing callbacks on every call, even for an input that is already first responder, where the platform does nothing.
- DropDowns.DropDown.LoadView: the contract only states the text-picker setup, the reload and the switch to dates. The day-only picker mode is a picker setting and is left out.
