# Counter, keypad and form state machines

A Dafny model of the three pieces of sequential logic in a set of small React
tutorial components:

- **Counter** (`counter.dfy`, CombinationReducerContext.jsx): the reducer over
  `{ count }`. It handles the actions `increment` and `decrement` and throws on
  any other action. The store that `useReducer` keeps is modelled as a fold
  `Run` over the dispatched actions. The fold stops at the first throw. The
  `Counter` component's two buttons are modelled as the actions they dispatch.
- **Keypad** (`keypad.dfy`, KeyEvents.jsx): the `KeypadInput` component as a
  class with its one field `inputValue`. Key-up appends the key when it matches
  `/^[0-9]+$/`, modelled as the predicate "non-empty and every character in
  '0'..'9'". Key-down reports whether the default action is prevented, which
  happens for "Backspace" and "Enter". The change handler does nothing. The
  pure function `AfterKeyUp` gives the next accumulator, and `AfterKeyUps`
  folds it over a sequence of key-ups.
- **Form** (`form.dfy`, EventHandling.jsx): the `InteractiveForm` component as
  a class with the fields `name`, `message` and `isHovered`. It has one method
  per event handler. Each method's postcondition ties the new state to a pure
  transition function on `FormState`. The submit button's
  `disabled={!name || !message}` is the predicate `SubmitDisabled`, and the
  hover colour is `TextColor`.

Two behaviours of the form are worth stating outright:

- `handleSubmit` has no emptiness check; only the button's
  `disabled={!name || !message}` blocks a submit. So `AfterSubmit` resets the
  fields whenever the key is not "Enter", and `SubmitThroughButton` models the
  disabled button.
- The reset value is a single space, not the empty string. So after a reset the
  button is enabled (`SubmitOutcome`). It stays enabled until a change event
  empties a field (`EnabledUntilCleared`).

## Model

| member | source | states |
|---|---|---|
| `Counter.InitialState` | CombinationReducerContext.jsx:3 | the initial state has count 0 |
| `Counter.Reduce` | CombinationReducerContext.jsx:6-15 | the reducer throws exactly when the action's type is neither "increment" nor "decrement" |
| `Counter.Run` | CombinationReducerContext.jsx:18 | the store `useReducer` keeps, as a fold over the dispatched actions; each action moves the count by at most one, so the count stays within the number of actions of where it started |
| `Counter.IncrementAddsOne` | CombinationReducerContext.jsx:8-9 | `increment` yields count + 1 |
| `Counter.DecrementSubtractsOne` | CombinationReducerContext.jsx:10-11 | `decrement` yields count − 1 |
| `Counter.UnknownActionThrows` | CombinationReducerContext.jsx:12-13 | any other action type throws, whatever the state |
| `Counter.IncrementDecrementCancel` | CombinationReducerContext.jsx:8-11 | increment then decrement, or decrement then increment, returns the original state |
| `Counter.RunNetCount` | CombinationReducerContext.jsx:6-18 | dispatching only recognised actions never throws, and the final count is the start count plus the number of increments minus the number of decrements |
| `Counter.RunThrowsIff` | CombinationReducerContext.jsx:6-18 | a sequence of dispatches throws exactly when it contains an unrecognised action |
| `Counter.RepeatedDispatch` | CombinationReducerContext.jsx:3-18 | from the initial state, n increments give count n and n decrements give count −n |
| `Counter.Dispatched` | CombinationReducerContext.jsx:33-34 | each button dispatches a recognised action: `+` dispatches increment and `-` dispatches decrement |
| `Counter.ButtonsNeverThrow` | CombinationReducerContext.jsx:27-35 | no sequence of button clicks reaches the error branch, and the count is the number of `+` clicks minus the number of `-` clicks |
| `Keypad.AfterKeyUp` | KeyEvents.jsx:13-22 | a key that passes the digit pattern is appended; the old value is a prefix of the new one; an all-digit value stays all-digit; the value is unchanged exactly when the key fails the pattern |
| `Keypad.MatchesDigitPattern` | KeyEvents.jsx:14 | the digit pattern; `DigitPatternExamples` shows it accepts "0", "9" and "12" and rejects "", "a", "1a", "Backspace" and "Enter" |
| `Keypad.DigitPatternExamples` | KeyEvents.jsx:14 | digit strings pass the pattern; the empty key, named keys and keys with a non-digit fail it |
| `Keypad.AfterKeyUps` | KeyEvents.jsx:13-22 | the accumulator after a sequence of key-ups; `AfterKeyUpsAppendsAccepted`, `AfterKeyUpsExtends` and `AfterKeyUpsKeepsDigits` prove what it appends, that it only grows, and that it stays all-digit |
| `Keypad.AfterKeyUpsAppendsAccepted` | KeyEvents.jsx:13-22 | after any key-ups the value is the old value followed by the keys that passed the pattern, in order |
| `Keypad.AfterKeyUpsExtends` | KeyEvents.jsx:21 | the accumulator only grows: the old value is a prefix of the value after any key-ups |
| `Keypad.AfterKeyUpsKeepsDigits` | KeyEvents.jsx:14-21 | starting all-digit, the accumulator stays all-digit after any key-ups |
| `Keypad.KeyUpExamples` | KeyEvents.jsx:14-21 | key-ups "1", "a", "2" from "" give "12"; "5" then "Backspace" gives "5" |
| `Keypad.KeypadInput.constructor` | KeyEvents.jsx:4 | the accumulator starts empty, which satisfies the all-digit invariant |
| `Keypad.KeypadInput.KeyDown` | KeyEvents.jsx:6-11 | the default is prevented exactly for "Backspace" and "Enter"; the accumulator is not changed |
| `Keypad.KeypadInput.KeyUp` | KeyEvents.jsx:13-22 | the new accumulator is `AfterKeyUp` of the old one and the key; the all-digit invariant is kept |
| `Keypad.KeypadInput.Change` | KeyEvents.jsx:24-27 | the change handler leaves the accumulator unchanged |
| `Keypad.TypeOneAThenTwo` | KeyEvents.jsx:13-22 | a component that receives key-ups "1", "a", "2" shows "12" |
| `Form.InitialForm` | EventHandling.jsx:4-6 | initially the name and message are "" and the hover flag is false |
| `Form.AfterChange` | EventHandling.jsx:9-16 | a change keeps the hover flag, changes the name only for field "name" and the message only for field "message" |
| `Form.AfterSubmit` | EventHandling.jsx:19-34 | a submit keeps the hover flag; with any key but "Enter" both fields become equal and the button is enabled |
| `Form.SubmitDisabled` | EventHandling.jsx:73 | the `disabled` expression, `!name` or `!message` on strings; `SubmitDisabledIff` proves it is true exactly when a field is "" |
| `Form.TextColor` | EventHandling.jsx:79 | the colour is always "red" or "black" |
| `Form.SubmitThroughButton` | EventHandling.jsx:73 | a disabled button submits nothing; an enabled one stays enabled after the submit; the hover flag is kept |
| `Form.Step` | EventHandling.jsx:9-50 | one handler per event; only mouse events change the hover flag, and a mouse event changes nothing else |
| `Form.Run` | EventHandling.jsx:9-50 | the state after a sequence of events; `HoverUntouched`, `LastMouseEventDecidesHover` and `EnabledUntilCleared` prove what it does to the hover flag and the button |
| `Form.ChangeRoutesByField` | EventHandling.jsx:9-16 | a change to "name" sets only the name, a change to "message" sets only the message, and a change to any other field changes nothing |
| `Form.ChangeIdempotent` | EventHandling.jsx:11-14 | applying the same change twice gives the same state as applying it once |
| `Form.SubmitOutcome` | EventHandling.jsx:19-34 | submit with key "Enter" changes nothing; with any other key both fields become " ", the hover flag is kept, and the button is then enabled |
| `Form.SubmitDisabledIff` | EventHandling.jsx:73 | the submit button is disabled exactly when the name or the message is "" |
| `Form.ButtonSubmitExamples` | EventHandling.jsx:73 | submitting through the button with an empty name does nothing, whatever the key; with name "Alice" and message "Hi" and any key but "Enter" it resets both to " " |
| `Form.HoverToggles` | EventHandling.jsx:43-50 | pointer-enter sets the hover flag, pointer-leave clears it, and neither changes the fields |
| `Form.ColorFollowsHover` | EventHandling.jsx:79 | the colour is "red" exactly when the flag is set and "black" exactly when it is not |
| `Form.HoverUntouched` | EventHandling.jsx:9-50 | events other than pointer-enter and pointer-leave never change the hover flag |
| `Form.LastMouseEventDecidesHover` | EventHandling.jsx:43-50 | after any events, the hover flag is true if the last mouse event was a pointer-enter and false if it was a pointer-leave |
| `Form.EnabledUntilCleared` | EventHandling.jsx:32-33 | once the button is enabled it stays enabled under any events that do not set a field to "", including submits |
| `Form.InteractiveForm.constructor` | EventHandling.jsx:4-6 | the component starts in `InitialForm` |
| `Form.InteractiveForm.Change` | EventHandling.jsx:9-16 | the new state is `AfterChange` of the old one |
| `Form.InteractiveForm.Submit` | EventHandling.jsx:19-34 | the default submission is always prevented, and the new state is `AfterSubmit` of the old one |
| `Form.InteractiveForm.KeyDown` | EventHandling.jsx:37-40 | the key-down handler changes nothing |
| `Form.InteractiveForm.MouseEnter` | EventHandling.jsx:43-45 | sets the hover flag and keeps the fields |
| `Form.InteractiveForm.MouseLeave` | EventHandling.jsx:48-50 | clears the hover flag and keeps the fields |
| `Form.InteractiveForm.IsSubmitDisabled` | EventHandling.jsx:73 | reports disabled exactly when the name or the message is "" |
| `Form.InteractiveForm.Color` | EventHandling.jsx:79 | reports "red" when hovered and "black" otherwise |

## Left out

- JSX markup and rendering: labels, inputs and element trees carry no logic beyond the expressions modelled above.
- `createContext`, `useContext` and `Provider` wiring: this is dependency injection. `dispatch` is modelled as applying the reducer to the stored state.
- React's scheduling of `useState` and `useReducer` updates and re-renders: each handler is assumed to run to completion, with its update applied before the next event. This makes the stale read of `inputValue` in `handleKeyUp` a plain append.
- `console.log` calls: diagnostic output only.
- `event.preventDefault()` as a DOM side effect: it is a boolean result of `KeyDown` and `Submit`.
- The JavaScript regular-expression engine: `/^[0-9]+$/` is replaced by an explicit character predicate.
- Counter.Reduce: the count is an unbounded integer. JavaScript numbers are doubles that stop being exact beyond 2^53, which no realistic click count reaches.
- Form.AfterSubmit: the submit event's `key` is a string parameter. A browser's submit event has no `key` property, so the "Enter" branch runs only if a caller supplies one.
- Form.SubmitThroughButton: models only that the browser does not submit through a disabled button. Implicit submission and other DOM submission paths are not modelled.
- MouseEvents.jsx (`HoverButton`, `TooltipCard`): its only logic is a hover flag set on enter and cleared on leave. That is the same toggle as `Form.HoverToggles`.
