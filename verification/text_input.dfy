/** The older text input: the same editing callbacks as `FormInput`, an
    optional character limit, and a `stopEditing` that resigns before it posts. */
module TextInputs {
  import opened Options
  import opened FormInputs

  /** A range of the text to be replaced: start and length. */
  datatype Range = Range(location: int, length: int)

  predicate RangeWithin(text: string, r: Range)
  {
    0 <= r.location && 0 <= r.length && r.location + r.length <= |text|
  }

  /** The text after the edit the platform asks about has been applied. */
  function ReplaceRange(text: string, r: Range, replacement: string): (edited: string)
    requires RangeWithin(text, r)
    ensures |edited| == |text| - r.length + |replacement|
    ensures edited[..r.location] == text[..r.location]
    ensures edited[r.location..r.location + |replacement|] == replacement
    ensures edited[r.location + |replacement|..] == text[r.location + r.length..]
  {
    text[..r.location] + replacement + text[r.location + r.length..]
  }

  class TextInput {
    var text: string
    var limit: Option<int>
    var hasInputDataSource: bool
    var hasTextInputDelegate: bool
    var hasValidationDelegate: bool
    var isOwnDelegate: bool
    var isFirstResponder: bool
    var log: seq<Effect>

    /** `init(frame:)`: nothing is set when `commonInit` runs. */
    constructor ()
      ensures text == "" && limit == None && log == []
      ensures !hasInputDataSource && !hasTextInputDelegate && !hasValidationDelegate
      ensures isOwnDelegate && !isFirstResponder
    {
      text := "";
      limit := None;
      hasInputDataSource, hasTextInputDelegate, hasValidationDelegate := false, false, false;
      isOwnDelegate, isFirstResponder := false, false;
      log := [];
      new;
      CommonInit();
    }

    /** `commonInit`, as for `FormInput`. */
    method CommonInit()
      modifies this
      ensures text == old(text) && limit == old(limit) && isFirstResponder == old(isFirstResponder)
      ensures hasInputDataSource == old(hasInputDataSource) && hasTextInputDelegate == old(hasTextInputDelegate)
      ensures hasValidationDelegate == old(hasValidationDelegate)
      ensures isOwnDelegate
      ensures log == old(log) + (if hasInputDataSource then [ApplyCustomInit] else [])
    {
      isOwnDelegate := true;
      if hasInputDataSource {
        log := log + [ApplyCustomInit];
      }
    }

    /** `setCustomCharLimit`: `None` removes the limit, a value replaces it. */
    method SetCustomCharLimit(newLimit: Option<int>)
      modifies this`limit
      ensures limit == newLimit
    {
      limit := newLimit;
    }

    /** `resignFirstResponder`, as the platform does it: an input that was
        editing gets `textFieldDidEndEditing` on its delegate, itself. */
    method ResignFirstResponder()
      modifies this`isFirstResponder, this`log
      ensures !isFirstResponder
      ensures log == old(log) + ResignEffects(old(isFirstResponder), hasTextInputDelegate)
    {
      var wasEditing := isFirstResponder;
      isFirstResponder := false;
      log := log + [Resign];
      if wasEditing {
        TextFieldDidEndEditing();
      }
    }

    /** `stopEditing`: resign first, then post the resigned notification. */
    method StopEditing()
      modifies this`isFirstResponder, this`log
      ensures !isFirstResponder
      ensures log == old(log) + ResignEffects(old(isFirstResponder), hasTextInputDelegate) + [Post(ResignedFirstResponder)]
    {
      ResignFirstResponder();
      log := log + [Post(ResignedFirstResponder)];
    }

    /** `textFieldDidBeginEditing`: the same three steps as `FormInput`. */
    method TextFieldDidBeginEditing()
      modifies this`log
      ensures log == old(log) + BeginEditingEffects(hasTextInputDelegate, hasValidationDelegate)
    {
      if hasTextInputDelegate {
        log := log + [DidEnterEditionMode];
      }
      if hasValidationDelegate {
        log := log + [DidExitErrorMode];
      }
      log := log + [Post(BecameFirstResponder)];
    }

    /** `textFieldDidEndEditing`. */
    method TextFieldDidEndEditing()
      modifies this`log
      ensures log == old(log) + (if hasTextInputDelegate then [DidExitEditionMode] else [])
    {
      if hasTextInputDelegate {
        log := log + [DidExitEditionMode];
      }
    }

    /** `textFieldShouldReturn`. */
    method TextFieldShouldReturn() returns (allow: bool)
      modifies this`log
      ensures allow && log == old(log) + [Post(Returned)]
    {
      log := log + [Post(Returned)];
      allow := true;
    }

    /** `textField(_:shouldChangeCharactersIn:replacementString:)`: with a
        limit, a non-empty replacement is allowed only while the current text
        is shorter than the limit; deletions, and every edit without a limit,
        are allowed. The range and the replacement's length play no part. */
    function ShouldChangeCharactersIn(r: Range, replacement: string): (allow: bool)
      reads this
      ensures replacement == [] ==> allow
      ensures limit.None? ==> allow
      ensures limit.Some? && replacement != [] ==> (allow <==> |text| < limit.value)
    {
      if limit.Some? && replacement != [] then |text| < limit.value else true
    }
  }

  /** Typing one character at a time never takes the text past the limit. */
  lemma TypingKeepsWithinLimit(t: TextInput, r: Range, c: char)
    requires t.limit.Some? && |t.text| <= t.limit.value
    requires RangeWithin(t.text, r)
    requires t.ShouldChangeCharactersIn(r, [c])
    ensures |ReplaceRange(t.text, r, [c])| <= t.limit.value
  {
  }

  /** The check looks at the current length only, so a pasted replacement is
      allowed even when it takes the text past the limit. */
  lemma PasteCanExceedLimit(t: TextInput)
    requires t.text == "abcd" && t.limit == Some(5)
    ensures t.ShouldChangeCharactersIn(Range(4, 0), "xyz")
    ensures |ReplaceRange(t.text, Range(4, 0), "xyz")| == 7
  {
  }
}
