/** The form of EventHandling.jsx: two text fields and a hover flag, the event
    handlers that update them, the submit button's `disabled` expression and
    the hover colour. The handlers are methods of `InteractiveForm`; what each
    does to the state is a function on `FormState`, and the properties are
    lemmas about those functions. */
module Form {

  /** The three state variables of `InteractiveForm`. */
  datatype FormState = FormState(name: string, message: string, isHovered: bool)

  /** JavaScript truthiness of a string: only the empty string is falsy. */
  predicate Truthy(s: string)
  {
    s != ""
  }

  /** `useState('')`, `useState('')`, `useState(false)`. */
  function InitialForm(): (s: FormState)
    ensures s.name == "" && s.message == "" && !s.isHovered
  {
    FormState("", "", false)
  }

  /** `handleChange`: route the new value by the name of the changed field. */
  function AfterChange(s: FormState, field: string, value: string): (r: FormState)
    ensures r.isHovered == s.isHovered
    ensures r.name != s.name ==> field == "name"
    ensures r.message != s.message ==> field == "message"
  {
    if field == "name" then s.(name := value)
    else if field == "message" then s.(message := value)
    else s
  }

  /** The value `handleSubmit` writes to both fields. */
  const ResetValue := " "

  /** `handleSubmit`: returns early on the Enter key, and otherwise resets both
      fields. */
  function AfterSubmit(s: FormState, key: string): (r: FormState)
    ensures r.isHovered == s.isHovered
    ensures key != "Enter" ==> r.name == r.message && !SubmitDisabled(r)
  {
    if key == "Enter" then s
    else s.(name := ResetValue, message := ResetValue)
  }

  /** `disabled={!name || !message}` on the submit button. */
  predicate SubmitDisabled(s: FormState)
  {
    !Truthy(s.name) || !Truthy(s.message)
  }

  /** The text colour of the hover area. */
  function TextColor(s: FormState): (color: string)
    ensures color == "red" || color == "black"
  {
    if s.isHovered then "red" else "black"
  }

  /** A disabled submit button does not submit the form: submitting through
      the button runs `handleSubmit` only while the button is enabled. */
  function SubmitThroughButton(s: FormState, key: string): (r: FormState)
    ensures SubmitDisabled(s) ==> r == s
    ensures !SubmitDisabled(s) ==> !SubmitDisabled(r)
    ensures r.isHovered == s.isHovered
  {
    if SubmitDisabled(s) then s else AfterSubmit(s, key)
  }

  /** The events the form's handlers receive. */
  datatype Event =
    | Changed(field: string, value: string)
    | Submitted(key: string)
    | KeyPressed(key: string)
    | MouseEntered
    | MouseLeft

  /** The state after one handler runs to completion. */
  function Step(s: FormState, e: Event): (r: FormState)
    ensures !IsMouseEvent(e) ==> r.isHovered == s.isHovered
    ensures IsMouseEvent(e) ==> r == s.(isHovered := e.MouseEntered?)
  {
    match e
    case Changed(field, value) => AfterChange(s, field, value)
    case Submitted(key) => AfterSubmit(s, key)
    case KeyPressed(_) => s
    case MouseEntered => s.(isHovered := true)
    case MouseLeft => s.(isHovered := false)
  }

  /** The state after a sequence of events, each handled before the next. */
  function Run(s: FormState, events: seq<Event>): FormState
    decreases |events|
  {
    if events == [] then s else Run(Step(s, events[0]), events[1..])
  }

  /** A change to "name" sets the name and nothing else; likewise for
      "message"; a change to any other field changes nothing. */
  lemma ChangeRoutesByField(s: FormState, field: string, value: string)
    ensures field == "name" ==>
      AfterChange(s, field, value) == FormState(value, s.message, s.isHovered)
    ensures field == "message" ==>
      AfterChange(s, field, value) == FormState(s.name, value, s.isHovered)
    ensures field != "name" && field != "message" ==> AfterChange(s, field, value) == s
  {
  }

  /** Applying the same change event twice is the same as applying it once. */
  lemma ChangeIdempotent(s: FormState, field: string, value: string)
    ensures AfterChange(AfterChange(s, field, value), field, value) == AfterChange(s, field, value)
  {
  }

  /** Submitting with the Enter key leaves the state as it was; with any other
      key both fields become a single space, which is not empty, so the
      button is enabled afterwards. */
  lemma SubmitOutcome(s: FormState, key: string)
    ensures key == "Enter" ==> AfterSubmit(s, key) == s
    ensures key != "Enter" ==>
      AfterSubmit(s, key) == FormState(" ", " ", s.isHovered) && !SubmitDisabled(AfterSubmit(s, key))
  {
  }

  /** The button is disabled exactly when one of the fields is empty. */
  lemma SubmitDisabledIff(s: FormState)
    ensures SubmitDisabled(s) <==> s.name == "" || s.message == ""
  {
  }

  /** While the button is disabled, submitting through it does nothing; a
      name "Alice" and message "Hi" are reset to single spaces. */
  lemma ButtonSubmitExamples(message: string, key: string)
    ensures SubmitThroughButton(FormState("", message, false), key) == FormState("", message, false)
    ensures key != "Enter" ==>
      SubmitThroughButton(FormState("Alice", "Hi", false), key) == FormState(" ", " ", false)
  {
  }

  /** Pointer-enter sets the hover flag and pointer-leave clears it, and
      neither touches the fields. */
  lemma HoverToggles(s: FormState)
    ensures Step(s, MouseEntered) == FormState(s.name, s.message, true)
    ensures Step(s, MouseLeft) == FormState(s.name, s.message, false)
  {
  }

  /** The colour is red exactly while the hover flag is set, black otherwise. */
  lemma ColorFollowsHover(s: FormState)
    ensures TextColor(s) == "red" <==> s.isHovered
    ensures TextColor(s) == "black" <==> !s.isHovered
  {
  }

  predicate IsMouseEvent(e: Event)
  {
    e.MouseEntered? || e.MouseLeft?
  }

  /** Handling `first` and then `second` is handling their concatenation. */
  lemma {:induction false} RunConcat(s: FormState, first: seq<Event>, second: seq<Event>)
    ensures Run(s, first + second) == Run(Run(s, first), second)
    decreases |first|
  {
    if first != [] {
      assert (first + second)[0] == first[0];
      assert (first + second)[1..] == first[1..] + second;
      RunConcat(Step(s, first[0]), first[1..], second);
      assert Run(s, first + second) == Run(Step(s, first[0]), first[1..] + second);
    } else {
      assert first + second == second;
    }
  }

  /** Events other than pointer-enter and pointer-leave leave the hover flag
      as it was. */
  lemma {:induction false} HoverUntouched(s: FormState, events: seq<Event>)
    requires forall i :: 0 <= i < |events| ==> !IsMouseEvent(events[i])
    ensures Run(s, events).isHovered == s.isHovered
    decreases |events|
  {
    if events != [] {
      var rest := events[1..];
      assert !IsMouseEvent(events[0]);
      assert forall k :: 0 <= k < |rest| ==> !IsMouseEvent(rest[k]) by {
        forall k | 0 <= k < |rest| ensures !IsMouseEvent(rest[k]) {
          assert rest[k] == events[k + 1];
        }
      }
      HoverUntouched(Step(s, events[0]), rest);
    }
  }

  /** After any sequence of events the hover flag is set by the last mouse
      event: true after a pointer-enter, false after a pointer-leave, however
      many other events follow it. */
  lemma LastMouseEventDecidesHover(s: FormState, before: seq<Event>, last: Event, after: seq<Event>)
    requires IsMouseEvent(last)
    requires forall i :: 0 <= i < |after| ==> !IsMouseEvent(after[i])
    ensures Run(s, before + [last] + after).isHovered == last.MouseEntered?
  {
    RunConcat(s, before + [last], after);
    RunConcat(s, before, [last]);
    HoverUntouched(Run(s, before + [last]), after);
  }

  /** A change event that clears one of the two fields. */
  predicate ClearsField(e: Event)
  {
    e.Changed? && (e.field == "name" || e.field == "message") && e.value == ""
  }

  /** Once the button is enabled it stays enabled until a change event empties
      a field: in particular, a submit never disables it, since it writes a
      single space rather than an empty string. */
  lemma {:induction false} EnabledUntilCleared(s: FormState, events: seq<Event>)
    requires !SubmitDisabled(s)
    requires forall i :: 0 <= i < |events| ==> !ClearsField(events[i])
    ensures !SubmitDisabled(Run(s, events))
    decreases |events|
  {
    if events != [] {
      var rest := events[1..];
      assert !ClearsField(events[0]);
      assert !SubmitDisabled(Step(s, events[0]));
      assert forall k :: 0 <= k < |rest| ==> !ClearsField(rest[k]) by {
        forall k | 0 <= k < |rest| ensures !ClearsField(rest[k]) {
          assert rest[k] == events[k + 1];
        }
      }
      EnabledUntilCleared(Step(s, events[0]), rest);
    }
  }

  /** The `InteractiveForm` component's state and its event handlers. */
  class InteractiveForm {
    var name: string
    var message: string
    var isHovered: bool

    /** The component's state as a value. */
    function State(): FormState
      reads this
    {
      FormState(name, message, isHovered)
    }

    constructor ()
      ensures State() == InitialForm()
    {
      name, message, isHovered := "", "", false;
    }

    /** `handleChange`. */
    method Change(field: string, value: string)
      modifies this
      ensures State() == AfterChange(old(State()), field, value)
    {
      if field == "name" {
        name := value;
      } else if field == "message" {
        message := value;
      }
    }

    /** `handleSubmit`: always prevents the default form submission. */
    method Submit(key: string) returns (preventDefault: bool)
      modifies this
      ensures preventDefault
      ensures State() == AfterSubmit(old(State()), key)
    {
      preventDefault := true;
      if key == "Enter" {
        return;
      }
      name := ResetValue;
      message := ResetValue;
    }

    /** `handleKeyDown`: only logs the key. */
    method KeyDown(key: string)
      ensures State() == old(State())
    {
    }

    /** `handleMouseEnter`. */
    method MouseEnter()
      modifies this
      ensures State() == old(State()).(isHovered := true)
    {
      isHovered := true;
    }

    /** `handleMouseLeave`. */
    method MouseLeave()
      modifies this
      ensures State() == old(State()).(isHovered := false)
    {
      isHovered := false;
    }

    /** Whether the submit button is rendered disabled. */
    method IsSubmitDisabled() returns (disabled: bool)
      ensures disabled <==> name == "" || message == ""
    {
      disabled := !Truthy(name) || !Truthy(message);
    }

    /** The colour the hover area is rendered in. */
    method Color() returns (color: string)
      ensures color == (if isHovered then "red" else "black")
    {
      color := TextColor(State());
    }
  }
}
