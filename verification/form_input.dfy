/** The text input of a form: a text field that is its own text-field delegate
    and turns the platform's editing callbacks into calls to its delegates and
    posts on the notification bus. Every such side effect is appended, in
    order, to the input's effect log. */
module FormInputs {

  /** The notifications an input posts (their names are the constants that
      both input classes declare). */
  datatype Notification = BecameFirstResponder | ResignedFirstResponder | Returned

  function NotificationName(n: Notification): string
  {
    match n
    case BecameFirstResponder => "textFieldBecameFirstResponder"
    case ResignedFirstResponder => "textFieldResignedFirstResponder"
    case Returned => "textFieldReturned"
  }

  lemma NotificationNamesDistinct(a: Notification, b: Notification)
    ensures NotificationName(a) == NotificationName(b) ==> a == b
  {
  }

  /** One side effect of an input. */
  datatype Effect =
    | ApplyCustomInit      // the input data source customises the input
    | DidEnterEditionMode  // call to the input's edition delegate
    | DidExitEditionMode   // call to the input's edition delegate
    | DidExitErrorMode     // call to the input's validation delegate
    | Post(note: Notification)
    | Resign               // the input resigns first responder

  /** The return-key label of a text field. */
  datatype ReturnKey = Default | Next | Go

  /** What an input does when editing begins: tell its edition delegate, then
      its validation delegate, then post that it became first responder. Both
      input classes do this in the same order. */
  function BeginEditingEffects(hasEditionDelegate: bool, hasValidationDelegate: bool): (effects: seq<Effect>)
    ensures |effects| == 1 + (if hasEditionDelegate then 1 else 0) + (if hasValidationDelegate then 1 else 0)
    ensures effects[|effects| - 1] == Post(BecameFirstResponder)
    ensures DidEnterEditionMode in effects <==> hasEditionDelegate
    ensures DidExitErrorMode in effects <==> hasValidationDelegate
    ensures hasEditionDelegate ==> effects[0] == DidEnterEditionMode
    ensures forall i :: 0 <= i < |effects| - 1 ==> !effects[i].Post?
  {
    (if hasEditionDelegate then [DidEnterEditionMode] else []) +
    (if hasValidationDelegate then [DidExitErrorMode] else []) +
    [Post(BecameFirstResponder)]
  }

  /** What an input does when it resigns first responder: the resignation,
      and then, when it was editing, the platform's end-editing callback,
      which tells its edition delegate. Both input classes are their own
      text-field delegate, so both do this. */
  function ResignEffects(wasFirstResponder: bool, hasEditionDelegate: bool): (effects: seq<Effect>)
    ensures |effects| == 1 + (if wasFirstResponder && hasEditionDelegate then 1 else 0)
    ensures effects[0] == Resign
    ensures DidExitEditionMode in effects <==> wasFirstResponder && hasEditionDelegate
    ensures forall i :: 0 <= i < |effects| ==> !effects[i].Post?
  {
    [Resign] + (if wasFirstResponder && hasEditionDelegate then [DidExitEditionMode] else [])
  }

  /** The fields of an input that its editing callbacks never change. */
  datatype InputSettings = InputSettings(
    text: string,
    frameY: real,
    frameHeight: real,
    returnKeyType: ReturnKey,
    hasInputDataSource: bool,
    hasFormInputDelegate: bool,
    hasValidationDelegate: bool)

  class FormInput {
    var text: string
    /** Vertical position and height of the input's frame in the form. */
    var frameY: real
    var frameHeight: real
    var returnKeyType: ReturnKey
    var hasInputDataSource: bool
    var hasFormInputDelegate: bool
    var hasValidationDelegate: bool
    /** Whether the text field's own delegate is this input. */
    var isOwnDelegate: bool
    var isFirstResponder: bool
    var log: seq<Effect>

    function Settings(): InputSettings
      reads this
    {
      InputSettings(text, frameY, frameHeight, returnKeyType, hasInputDataSource,
                    hasFormInputDelegate, hasValidationDelegate)
    }

    /** `init(frame:)`: no data source or delegate is set yet when
        `commonInit` runs, so the custom init is not applied. */
    constructor (y: real, height: real)
      ensures Settings() == InputSettings("", y, height, Default, false, false, false)
      ensures isOwnDelegate && !isFirstResponder && log == []
    {
      text := "";
      frameY, frameHeight := y, height;
      returnKeyType := Default;
      hasInputDataSource, hasFormInputDelegate, hasValidationDelegate := false, false, false;
      isOwnDelegate, isFirstResponder := false, false;
      log := [];
      new;
      CommonInit();
    }

    /** `commonInit`: become the field's own delegate; apply the data
        source's custom init when there is a data source. */
    method CommonInit()
      modifies this
      ensures Settings() == old(Settings()) && isFirstResponder == old(isFirstResponder)
      ensures isOwnDelegate
      ensures log == old(log) + (if hasInputDataSource then [ApplyCustomInit] else [])
    {
      isOwnDelegate := true;
      if hasInputDataSource {
        log := log + [ApplyCustomInit];
      }
    }

    /** `resignFirstResponder`, as the platform does it: an input that was
        editing gets `textFieldDidEndEditing` on its delegate, itself. */
    method ResignFirstResponder()
      modifies this
      ensures Settings() == old(Settings()) && isOwnDelegate == old(isOwnDelegate)
      ensures !isFirstResponder
      ensures log == old(log) + ResignEffects(old(isFirstResponder), hasFormInputDelegate)
    {
      var wasEditing := isFirstResponder;
      isFirstResponder := false;
      log := log + [Resign];
      if wasEditing {
        TextFieldDidEndEditing();
      }
    }

    /** `stopEditing`: post the resigned notification, then resign. */
    method StopEditing()
      modifies this
      ensures Settings() == old(Settings()) && isOwnDelegate == old(isOwnDelegate)
      ensures !isFirstResponder
      ensures log == old(log) + [Post(ResignedFirstResponder)] + ResignEffects(old(isFirstResponder), hasFormInputDelegate)
    {
      log := log + [Post(ResignedFirstResponder)];
      ResignFirstResponder();
    }

    /** `textFieldDidBeginEditing`. */
    method TextFieldDidBeginEditing()
      modifies this
      ensures Settings() == old(Settings()) && isOwnDelegate == old(isOwnDelegate)
      ensures isFirstResponder == old(isFirstResponder)
      ensures log == old(log) + BeginEditingEffects(hasFormInputDelegate, hasValidationDelegate)
    {
      if hasFormInputDelegate {
        log := log + [DidEnterEditionMode];
      }
      if hasValidationDelegate {
        log := log + [DidExitErrorMode];
      }
      log := log + [Post(BecameFirstResponder)];
    }

    /** The platform making the input first responder, which then calls
        `textFieldDidBeginEditing` on it. */
    method BecomeFirstResponder()
      modifies this
      ensures Settings() == old(Settings()) && isOwnDelegate == old(isOwnDelegate)
      ensures isFirstResponder
      ensures log == old(log) + BeginEditingEffects(hasFormInputDelegate, hasValidationDelegate)
    {
      isFirstResponder := true;
      TextFieldDidBeginEditing();
    }

    /** `textFieldDidEndEditing`: only the edition delegate hears of it. */
    method TextFieldDidEndEditing()
      modifies this
      ensures Settings() == old(Settings()) && isOwnDelegate == old(isOwnDelegate)
      ensures isFirstResponder == old(isFirstResponder)
      ensures log == old(log) + (if hasFormInputDelegate then [DidExitEditionMode] else [])
    {
      if hasFormInputDelegate {
        log := log + [DidExitEditionMode];
      }
    }

    /** `textFieldShouldReturn`: always allows the return and posts it. */
    method TextFieldShouldReturn() returns (allow: bool)
      modifies this
      ensures Settings() == old(Settings()) && isOwnDelegate == old(isOwnDelegate)
      ensures isFirstResponder == old(isFirstResponder)
      ensures allow && log == old(log) + [Post(Returned)]
    {
      log := log + [Post(Returned)];
      allow := true;
    }
  }
}
