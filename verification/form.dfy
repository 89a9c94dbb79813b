/** The form: a scroll view that owns its inputs, labels their return keys,
    moves the focus along the chain its delegate defines when an input
    returns, and shrinks and scrolls its frame while the keyboard is up.

    The notification bus is synchronous here: an input that becomes first
    responder runs its begin-editing callbacks, whose edition-delegate call
    and became-first-responder post reach the form at once. */
module Forms {
  import opened Options
  import opened FormInputs

  // ---------------------------------------------------------------------------
  // Scroll state

  datatype Rect = Rect(x: real, y: real, width: real, height: real)
  datatype Point = Point(x: real, y: real)

  /** The frame, the frame saved before shrinking, whether the form is shrunk
      for the keyboard, the keyboard height and the content offset. */
  datatype ScrollState = ScrollState(
    frame: Rect,
    originalFrame: Option<Rect>,
    scrolledForKeyboard: bool,
    keyboardHeight: real,
    contentOffset: Point)

  /** The keyboard height assumed until the keyboard reports its own. */
  const DefaultKeyboardHeight: real := 216.0

  /** `minimizeScrollingZone` for an input at `inputY` of height `inputHeight`:
      shrink once, then centre the input in the (possibly shrunk) frame. */
  function Minimize(s: ScrollState, inputY: real, inputHeight: real): ScrollState
  {
    var shrunk :=
      if !s.scrolledForKeyboard then
        s.(scrolledForKeyboard := true, originalFrame := Some(s.frame),
           frame := s.frame.(height := s.frame.height - s.keyboardHeight))
      else s;
    shrunk.(contentOffset := Point(0.0, inputY - shrunk.frame.height / 2.0 + inputHeight / 2.0))
  }

  /** `resetScrollingZone`. */
  function Reset(s: ScrollState): ScrollState
  {
    s.(scrolledForKeyboard := false,
       frame := if s.originalFrame.Some? then s.originalFrame.value else s.frame)
  }

  /** Shrinking keeps x, y and width, takes the keyboard off the height and
      saves the frame it started from. */
  lemma MinimizeShrinksOnce(s: ScrollState, inputY: real, inputHeight: real)
    requires !s.scrolledForKeyboard
    ensures Minimize(s, inputY, inputHeight).scrolledForKeyboard
    ensures Minimize(s, inputY, inputHeight).originalFrame == Some(s.frame)
    ensures Minimize(s, inputY, inputHeight).frame ==
      Rect(s.frame.x, s.frame.y, s.frame.width, s.frame.height - s.keyboardHeight)
  {
  }

  /** Once shrunk, the frame and the saved frame stay as they are. */
  lemma MinimizeWhenShrunk(s: ScrollState, inputY: real, inputHeight: real)
    requires s.scrolledForKeyboard
    ensures Minimize(s, inputY, inputHeight).frame == s.frame
    ensures Minimize(s, inputY, inputHeight).originalFrame == s.originalFrame
    ensures Minimize(s, inputY, inputHeight).scrolledForKeyboard
  {
  }

  /** The content offset puts the input's centre at the centre of the frame,
      unclamped. */
  lemma MinimizeCentresInput(s: ScrollState, inputY: real, inputHeight: real)
    ensures var m := Minimize(s, inputY, inputHeight);
      m.contentOffset.x == 0.0 &&
      m.contentOffset.y + m.frame.height / 2.0 == inputY + inputHeight / 2.0
  {
  }

  /** Resetting twice is resetting once. */
  lemma ResetIdempotent(s: ScrollState)
    ensures Reset(Reset(s)) == Reset(s)
  {
  }

  /** One or more focus changes, starting from an unshrunk form, followed by
      a reset give back the frame the form had before the first one. */
  lemma {:induction false} MinimizeThenResetRestores(s: ScrollState, ys: seq<real>, hs: seq<real>)
    requires !s.scrolledForKeyboard && |ys| == |hs| && |ys| > 0
    ensures Reset(MinimizeAll(s, ys, hs)).frame == s.frame
    ensures !Reset(MinimizeAll(s, ys, hs)).scrolledForKeyboard
  {
    MinimizeAllKeepsFirstSave(s, ys, hs);
  }

  /** Successive focus changes, input by input. */
  function MinimizeAll(s: ScrollState, ys: seq<real>, hs: seq<real>): ScrollState
    requires |ys| == |hs|
    decreases |ys|
  {
    if ys == [] then s else MinimizeAll(Minimize(s, ys[0], hs[0]), ys[1..], hs[1..])
  }

  lemma {:induction false} MinimizeAllKeepsFirstSave(s: ScrollState, ys: seq<real>, hs: seq<real>)
    requires !s.scrolledForKeyboard && |ys| == |hs| && |ys| > 0
    ensures MinimizeAll(s, ys, hs).scrolledForKeyboard
    ensures MinimizeAll(s, ys, hs).originalFrame == Some(s.frame)
  {
    var m := Minimize(s, ys[0], hs[0]);
    MinimizeShrunkStays(m, ys[1..], hs[1..]);
  }

  lemma {:induction false} MinimizeShrunkStays(s: ScrollState, ys: seq<real>, hs: seq<real>)
    requires s.scrolledForKeyboard && |ys| == |hs|
    ensures MinimizeAll(s, ys, hs).scrolledForKeyboard
    ensures MinimizeAll(s, ys, hs).originalFrame == s.originalFrame
    ensures MinimizeAll(s, ys, hs).frame == s.frame
    decreases |ys|
  {
    if ys != [] {
      MinimizeShrunkStays(Minimize(s, ys[0], hs[0]), ys[1..], hs[1..]);
    }
  }

  // ---------------------------------------------------------------------------
  // Focus chain

  /** The form delegate's chain: `getFirstInput` answers `first`, and
      `getNextInput(x)` answers the element after `x` in `[first] + rest`,
      or nil when `x` is the last one or not in the chain. */
  datatype Chain<T> = Chain(first: T, rest: seq<T>)

  function Order<T>(c: Chain<T>): seq<T>
  {
    [c.first] + c.rest
  }

  function IndexIn<T(==)>(order: seq<T>, x: T): (r: Option<nat>)
    ensures r.Some? ==> r.value < |order| && order[r.value] == x &&
                        forall j :: 0 <= j < r.value ==> order[j] != x
    ensures r.None? ==> x !in order
  {
    if order == [] then None
    else if order[0] == x then Some(0)
    else
      match IndexIn(order[1..], x)
      case None => None
      case Some(i) => Some(i + 1)
  }

  function NextIn<T(==)>(c: Chain<T>, x: T): (r: Option<T>)
    ensures r.Some? ==> x in Order(c) && r.value in c.rest
  {
    var order := Order(c);
    match IndexIn(order, x)
    case None => None
    case Some(i) => if i + 1 < |order| then Some(order[i + 1]) else None
  }

  predicate Distinct<T(==)>(s: seq<T>)
  {
    forall i, j :: 0 <= i < j < |s| ==> s[i] != s[j]
  }

  /** On a chain without repetitions, the next of the k-th element is the
      (k+1)-th, and the last has none. */
  lemma NextOfKth<T>(c: Chain<T>, k: nat)
    requires Distinct(Order(c)) && k < |Order(c)|
    ensures NextIn(c, Order(c)[k]) == if k + 1 < |Order(c)| then Some(Order(c)[k + 1]) else None
  {
    var i := IndexIn(Order(c), Order(c)[k]);
    assert i == Some(k);
  }

  /** What a return does: submit when the current input is last, which it is
      when there is no delegate; otherwise focus the next input. */
  datatype ReturnAction<T> = Submit | Focus(next: T)

  function ActionOnReturn<T(==)>(delegate: Option<Chain<T>>, current: T): (a: ReturnAction<T>)
    ensures a.Submit? <==> delegate.None? || NextIn(delegate.value, current).None?
    ensures a.Focus? ==> a.next in delegate.value.rest
  {
    if delegate.None? then Submit
    else
      match NextIn(delegate.value, current)
      case None => Submit
      case Some(n) => Focus(n)
  }

  /** The actions of `n` successive returns starting from `current`: after a
      focus the focused input is the current one. */
  function ReturnTrace<T(==)>(c: Chain<T>, current: T, n: nat): (t: seq<ReturnAction<T>>)
    ensures |t| == n
  {
    if n == 0 then []
    else
      var a := ActionOnReturn(Some(c), current);
      [a] + ReturnTrace(c, if a.Focus? then a.next else current, n - 1)
  }

  lemma {:induction false} TraversalFrom<T>(c: Chain<T>, k: nat)
    requires Distinct(Order(c)) && k < |Order(c)|
    ensures var t := ReturnTrace(c, Order(c)[k], |Order(c)| - k);
      t[|t| - 1] == Submit &&
      forall j :: 0 <= j < |t| - 1 ==> t[j] == Focus(Order(c)[k + j + 1])
    decreases |Order(c)| - k
  {
    var order := Order(c);
    var t := ReturnTrace(c, order[k], |order| - k);
    NextOfKth(c, k);
    if k + 1 < |order| {
      assert ActionOnReturn(Some(c), order[k]) == Focus(order[k + 1]);
      var u := ReturnTrace(c, order[k + 1], |order| - (k + 1));
      assert t == [Focus(order[k + 1])] + u;
      TraversalFrom(c, k + 1);
      forall j | 0 <= j < |t| - 1
        ensures t[j] == Focus(order[k + j + 1])
      {
        if j > 0 {
          assert t[j] == u[j - 1];
        }
      }
      assert t[|t| - 1] == u[|u| - 1];
    } else {
      assert ActionOnReturn(Some(c), order[k]) == Submit;
      assert t == [Submit];
    }
  }

  /** On a finite chain without repetitions, returning from the first input
      once per input focuses every other input once, in chain order, and
      submits exactly once, at the end. */
  lemma ReturnsFromFirstVisitEachOnce<T>(c: Chain<T>)
    requires Distinct(Order(c))
    ensures var t := ReturnTrace(c, c.first, |Order(c)|);
      t[|t| - 1] == Submit &&
      forall j :: 0 <= j < |t| - 1 ==> t[j] == Focus(c.rest[j])
  {
    TraversalFrom(c, 0);
  }

  // ---------------------------------------------------------------------------
  // The form

  /** A view added to the form: a form input, or any other view. */
  datatype SubView = InputView(input: FormInput) | OtherView

  /** What the form tells its delegate. */
  datatype FormEvent = GoReturnKeyTouched

  /** The return key an input of `inputs` gets. */
  function ExpectedReturnKey(inputs: seq<FormInput>, x: FormInput): ReturnKey
  {
    if inputs != [] && x == inputs[|inputs| - 1] then Go else Next
  }

  class Form {
    var frame: Rect
    var originalFrame: Option<Rect>
    var viewScrolledForKeyboard: bool
    var keyboardViewHeight: real
    var contentOffset: Point
    var formDelegate: Option<Chain<FormInput>>
    var currentInput: Option<FormInput>
    var inputs: seq<FormInput>
    var events: seq<FormEvent>

    function Scroll(): ScrollState
      reads this
    {
      ScrollState(frame, originalFrame, viewScrolledForKeyboard, keyboardViewHeight, contentOffset)
    }

    /** `init(frame:)`: no delegate is set yet when `commonInit` runs. */
    constructor (initialFrame: Rect)
      ensures Scroll() == ScrollState(initialFrame, None, false, DefaultKeyboardHeight, Point(0.0, 0.0))
      ensures formDelegate.None? && currentInput.None? && inputs == [] && events == []
    {
      frame := initialFrame;
      originalFrame := None;
      viewScrolledForKeyboard := false;
      keyboardViewHeight := DefaultKeyboardHeight;
      contentOffset := Point(0.0, 0.0);
      formDelegate := None;
      currentInput := None;
      inputs := [];
      events := [];
      new;
      CommonInit();
    }

    /** `commonInit`: with a delegate, start at its first input. */
    method CommonInit()
      modifies this`currentInput
      ensures currentInput == if formDelegate.Some? then Some(formDelegate.value.first) else old(currentInput)
    {
      if formDelegate.Some? {
        currentInput := Some(formDelegate.value.first);
      }
    }

    /** `handleInputsReturnKeys`: the input that is `inputs.last` gets Go,
        every other input Next. */
    method HandleInputsReturnKeys()
      modifies set x | x in inputs
      ensures forall x :: x in inputs ==> x.returnKeyType == ExpectedReturnKey(inputs, x)
      ensures forall x :: x in inputs ==>
        x.Settings() == old(x.Settings()).(returnKeyType := x.returnKeyType) &&
        x.log == old(x.log) && x.isFirstResponder == old(x.isFirstResponder) &&
        x.isOwnDelegate == old(x.isOwnDelegate)
    {
      for i := 0 to |inputs|
        invariant forall x :: x in inputs[..i] ==> x.returnKeyType == ExpectedReturnKey(inputs, x)
        invariant forall x :: x in inputs ==>
          x.Settings() == old(x.Settings()).(returnKeyType := x.returnKeyType) &&
          x.log == old(x.log) && x.isFirstResponder == old(x.isFirstResponder) &&
          x.isOwnDelegate == old(x.isOwnDelegate)
      {
        var input := inputs[i];
        if input == inputs[|inputs| - 1] {
          input.returnKeyType := Go;
        } else {
          input.returnKeyType := Next;
        }
        assert inputs[..i + 1] == inputs[..i] + [input];
      }
    }

    /** Assigning `inputs`, with its observer. */
    method SetInputs(newInputs: seq<FormInput>)
      modifies this`inputs, set x | x in newInputs
      ensures inputs == newInputs
      ensures forall x :: x in inputs ==> x.returnKeyType == ExpectedReturnKey(inputs, x)
      ensures forall x :: x in inputs ==>
        x.Settings() == old(x.Settings()).(returnKeyType := x.returnKeyType) &&
        x.log == old(x.log) && x.isFirstResponder == old(x.isFirstResponder) &&
        x.isOwnDelegate == old(x.isOwnDelegate)
    {
      inputs := newInputs;
      HandleInputsReturnKeys();
    }

    /** `addSubview`: a form input gets the form as its edition delegate and
        is appended to `inputs`; any other view leaves `inputs` as it is. */
    method AddSubview(view: SubView)
      modifies this`inputs, if view.InputView? then {view.input} + set x | x in inputs else {}
      ensures view.OtherView? ==> inputs == old(inputs)
      ensures view.InputView? ==> inputs == old(inputs) + [view.input]
      ensures view.InputView? ==> forall x :: x in inputs ==> x.returnKeyType == ExpectedReturnKey(inputs, x)
      ensures view.InputView? ==>
        view.input.Settings() ==
          old(view.input.Settings()).(returnKeyType := view.input.returnKeyType, hasFormInputDelegate := true)
      ensures view.InputView? ==> forall x :: x in old(inputs) && x != view.input ==>
        x.Settings() == old(x.Settings()).(returnKeyType := x.returnKeyType)
      ensures view.InputView? ==> forall x :: x in inputs ==>
        x.log == old(x.log) && x.isFirstResponder == old(x.isFirstResponder) &&
        x.isOwnDelegate == old(x.isOwnDelegate)
    {
      if view.InputView? {
        var input := view.input;
        input.hasFormInputDelegate := true;
        SetInputs(inputs + [input]);
      }
    }

    /** `minimizeScrollingZone`, run at once rather than on the next turn of
        the main queue, with the offset set without animation. */
    method MinimizeScrollingZone(input: FormInput)
      modifies this`frame, this`originalFrame, this`viewScrolledForKeyboard, this`contentOffset
      ensures Scroll() == Minimize(old(Scroll()), input.frameY, input.frameHeight)
    {
      if !viewScrolledForKeyboard {
        viewScrolledForKeyboard := true;
        originalFrame := Some(frame);
        frame := Rect(frame.x, frame.y, frame.width, frame.height - keyboardViewHeight);
      }
      contentOffset := Point(0.0, input.frameY - frame.height / 2.0 + input.frameHeight / 2.0);
    }

    /** `resetScrollingZone`. */
    method ResetScrollingZone()
      modifies this`frame, this`viewScrolledForKeyboard
      ensures Scroll() == Reset(old(Scroll()))
    {
      viewScrolledForKeyboard := false;
      if originalFrame.Some? {
        frame := originalFrame.value;
      }
    }

    /** `keyboardShown`, given the keyboard's height in the form's space. */
    method KeyboardShown(height: real)
      modifies this`keyboardViewHeight
      ensures Scroll() == old(Scroll()).(keyboardHeight := height)
    {
      keyboardViewHeight := height;
    }

    /** `textFieldBecameFirstResponder`: any input that posts it becomes the
        current input. */
    method TextFieldBecameFirstResponder(input: FormInput)
      modifies this`currentInput
      ensures currentInput == Some(input)
    {
      currentInput := Some(input);
    }

    /** `didEnterEditionMode`: shrink and scroll for the input. */
    method DidEnterEditionMode(input: FormInput)
      modifies this`frame, this`originalFrame, this`viewScrolledForKeyboard, this`contentOffset
      ensures Scroll() == Minimize(old(Scroll()), input.frameY, input.frameHeight)
    {
      MinimizeScrollingZone(input);
    }

    /** `isLastInput`: the argument plays no part; the answer depends on the
        delegate and the current input only. */
    predicate IsLastInput(input: FormInput): (last: bool)
      reads this
      requires formDelegate.Some? ==> currentInput.Some?
      ensures formDelegate.None? ==> last
      ensures !last ==> formDelegate.Some? && currentInput.value in Order(formDelegate.value) &&
                        |Order(formDelegate.value)| > 1
    {
      formDelegate.None? || NextIn(formDelegate.value, currentInput.value).None?
    }

    /** What a return does now. */
    function NextAction(): (a: ReturnAction<FormInput>)
      reads this
      requires formDelegate.Some? ==> currentInput.Some?
      ensures currentInput.Some? ==> (a.Submit? <==> IsLastInput(currentInput.value))
      ensures a.Focus? ==> formDelegate.Some? && a.next in formDelegate.value.rest
    {
      if formDelegate.None? then Submit else ActionOnReturn(formDelegate, currentInput.value)
    }

    /** `isLastInput` gives the same answer whatever input it is asked about. */
    lemma IsLastInputIgnoresArgument(a: FormInput, b: FormInput)
      requires formDelegate.Some? ==> currentInput.Some?
      ensures IsLastInput(a) == IsLastInput(b)
    {
    }

    function FocusTarget(): set<FormInput>
      reads this
      requires formDelegate.Some? ==> currentInput.Some?
    {
      var a := NextAction();
      if a.Focus? then {a.next} else {}
    }

    /** An input becoming first responder, with its begin-editing callbacks
        delivered to this form: the edition-delegate call shrinks and scrolls,
        the became-first-responder post makes it the current input. */
    method FocusInput(input: FormInput)
      modifies this`frame, this`originalFrame, this`viewScrolledForKeyboard, this`contentOffset,
               this`currentInput, input
      ensures input.isFirstResponder && input.Settings() == old(input.Settings())
      ensures input.isOwnDelegate == old(input.isOwnDelegate)
      ensures input.log == old(input.log) + BeginEditingEffects(input.hasFormInputDelegate, input.hasValidationDelegate)
      ensures Scroll() == if input.hasFormInputDelegate
                          then Minimize(old(Scroll()), input.frameY, input.frameHeight)
                          else old(Scroll())
      ensures currentInput == Some(input)
    {
      input.BecomeFirstResponder();
      if input.hasFormInputDelegate {
        DidEnterEditionMode(input);
      }
      TextFieldBecameFirstResponder(input);
    }

    /** `textFieldReturnedFired`. The delegate's answer is asked about the
        current input, which must be set once a delegate is. Focusing the
        next input first makes `textfield`, if it is still editing, resign. */
    method TextFieldReturnedFired(textfield: FormInput)
      requires formDelegate.Some? ==> currentInput.Some?
      modifies this, textfield, FocusTarget()
      ensures formDelegate == old(formDelegate) && inputs == old(inputs)
      ensures textfield.Settings() == old(textfield.Settings()) && textfield.isOwnDelegate == old(textfield.isOwnDelegate)
      ensures old(NextAction()).Submit? ==>
        textfield.log == old(textfield.log) + [Post(ResignedFirstResponder)] +
                         ResignEffects(old(textfield.isFirstResponder), textfield.hasFormInputDelegate) &&
        !textfield.isFirstResponder &&
        Scroll() == Reset(old(Scroll())) &&
        currentInput == old(currentInput) &&
        events == old(events) + (if formDelegate.Some? then [GoReturnKeyTouched] else [])
      ensures old(NextAction()).Focus? ==>
        var next := old(NextAction()).next;
        currentInput == Some(next) && next.isFirstResponder && next.Settings() == old(next.Settings()) &&
        next.isOwnDelegate == old(next.isOwnDelegate) &&
        next.log == old(next.log) + BeginEditingEffects(next.hasFormInputDelegate, next.hasValidationDelegate) &&
        Scroll() == (if next.hasFormInputDelegate then Minimize(old(Scroll()), next.frameY, next.frameHeight)
                     else old(Scroll())) &&
        events == old(events)
      ensures old(NextAction()).Focus? && old(NextAction()).next != textfield ==>
        !textfield.isFirstResponder &&
        textfield.log == old(textfield.log) +
          (if old(textfield.isFirstResponder) then ResignEffects(true, textfield.hasFormInputDelegate) else [])
    {
      if IsLastInput(textfield) {
        textfield.StopEditing();
        ResetScrollingZone();
        if formDelegate.Some? {
          events := events + [GoReturnKeyTouched];
        }
      } else {
        var next := NextIn(formDelegate.value, currentInput.value).value;
        if next != textfield && textfield.isFirstResponder {
          textfield.ResignFirstResponder();
        }
        FocusInput(next);
      }
    }
  }
}
