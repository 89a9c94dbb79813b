/** A form that validates all its inputs, in order, stopping at the first one
    that fails. */
module ValidatedForm {
  import opened ValidatedFormInput

  /** `validate()`. The inputs are those `getOrderedInputs()` returns, which
      the form's subclass supplies; `parsesDate` is the platform date parser.
      Besides the verdict it returns the error-mode callbacks made and how many
      inputs were checked, so that "stops at the first failure" can be stated. */
  method Validate(inputs: seq<Field>, parsesDate: string -> bool)
    returns (valid: bool, callbacks: seq<ErrorEvent>, checked: nat)
    ensures valid <==> forall i :: 0 <= i < |inputs| ==> ValidateFormat(inputs[i], parsesDate).valid
    ensures valid ==> checked == |inputs| && callbacks == []
    ensures !valid ==> 0 < checked <= |inputs|
    ensures !valid ==> !ValidateFormat(inputs[checked - 1], parsesDate).valid
    ensures !valid ==> forall i :: 0 <= i < checked - 1 ==> ValidateFormat(inputs[i], parsesDate).valid
    ensures !valid ==> callbacks == ValidateFormat(inputs[checked - 1], parsesDate).callbacks
    ensures |callbacks| <= 1
  {
    callbacks := [];
    checked := 0;
    for i := 0 to |inputs|
      invariant checked == i && callbacks == []
      invariant forall j :: 0 <= j < i ==> ValidateFormat(inputs[j], parsesDate).valid
    {
      var v := ValidateFormat(inputs[i], parsesDate);
      callbacks := callbacks + v.callbacks;
      checked := checked + 1;
      if !v.valid {
        AtMostOneCallback(inputs[i], parsesDate);
        return false, callbacks, checked;
      }
    }
    valid := true;
  }
}
