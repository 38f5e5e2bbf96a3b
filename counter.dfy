/** The counter of CombinationReducerContext.jsx: a reducer over the state
    `{ count }`, the store that `useReducer` keeps by applying it to every
    dispatched action in turn, and the two buttons of `Counter` that dispatch
    actions. */
module Counter {

  /** The reducer's state, the object `{ count }`. */
  datatype State = State(count: int)

  /** An action object `{ type }`; the reducer switches on its tag string. */
  datatype Action = Action(tag: string)

  /** What one call of the reducer does: return the next state, or throw.
      The thrown `Error` carries no message, so neither does `Thrown`. */
  datatype Outcome = Next(state: State) | Thrown

  /** The two actions the reducer recognises. */
  const Increment := Action("increment")
  const Decrement := Action("decrement")

  /** `initialState`, the state `useReducer` starts from. */
  function InitialState(): (s: State)
    ensures s.count == 0
  {
    State(0)
  }

  /** The tags the reducer's `switch` has a case for. */
  predicate Recognized(a: Action)
  {
    a.tag == "increment" || a.tag == "decrement"
  }

  /** `reducer(state, action)`: the transition function. */
  function Reduce(state: State, action: Action): (r: Outcome)
    ensures r.Thrown? <==> !Recognized(action)
  {
    if action.tag == "increment" then Next(State(state.count + 1))
    else if action.tag == "decrement" then Next(State(state.count - 1))
    else Thrown
  }

  /** The store behind `useReducer`: the state after dispatching `actions`
      one after the other from `state`, or `Thrown` once one of them throws. */
  function Run(state: State, actions: seq<Action>): (r: Outcome)
    ensures r.Next? ==> -|actions| <= r.state.count - state.count <= |actions|
    decreases |actions|
  {
    if actions == [] then Next(state)
    else
      match Reduce(state, actions[0])
      case Thrown => Thrown
      case Next(s) => Run(s, actions[1..])
  }

  /** The number of actions in `actions` whose tag is `tag`. */
  function Occurrences(actions: seq<Action>, tag: string): (n: nat)
    ensures n <= |actions|
  {
    if actions == [] then 0
    else (if actions[0].tag == tag then 1 else 0) + Occurrences(actions[1..], tag)
  }

  /** `n` copies of the action `a`. */
  function Repeat(a: Action, n: nat): (r: seq<Action>)
    ensures |r| == n
    ensures forall i :: 0 <= i < n ==> r[i] == a
  {
    if n == 0 then [] else [a] + Repeat(a, n - 1)
  }

  lemma IncrementAddsOne(s: State)
    ensures Reduce(s, Increment) == Next(State(s.count + 1))
  {
  }

  lemma DecrementSubtractsOne(s: State)
    ensures Reduce(s, Decrement) == Next(State(s.count - 1))
  {
  }

  /** An action with any other tag throws, whatever the current state. */
  lemma UnknownActionThrows(s: State, a: Action)
    requires a.tag != "increment" && a.tag != "decrement"
    ensures Reduce(s, a) == Thrown
  {
  }

  /** An increment and a decrement, in either order, cancel out. */
  lemma IncrementDecrementCancel(s: State)
    ensures Run(s, [Increment, Decrement]) == Next(s)
    ensures Run(s, [Decrement, Increment]) == Next(s)
  {
    var up, down := State(s.count + 1), State(s.count - 1);
    var incDec, decInc := [Increment, Decrement], [Decrement, Increment];
    assert incDec[1..] == [Decrement] && [Decrement][1..] == [];
    assert Run(s, incDec) == Run(up, [Decrement]);
    assert Run(up, [Decrement]) == Run(s, []);
    assert decInc[1..] == [Increment] && [Increment][1..] == [];
    assert Run(s, decInc) == Run(down, [Increment]);
    assert Run(down, [Increment]) == Run(s, []);
  }

  /** Dispatching a sequence of recognised actions never throws, and the
      count moves by the number of increments minus the number of decrements. */
  lemma {:induction false} RunNetCount(s: State, actions: seq<Action>)
    requires forall i :: 0 <= i < |actions| ==> Recognized(actions[i])
    ensures Run(s, actions)
         == Next(State(s.count + Occurrences(actions, "increment") - Occurrences(actions, "decrement")))
    decreases |actions|
  {
    if actions != [] {
      var rest := actions[1..];
      assert forall i :: 0 <= i < |rest| ==> Recognized(rest[i]) by {
        forall i | 0 <= i < |rest| ensures Recognized(rest[i]) {
          assert rest[i] == actions[i + 1];
        }
      }
      assert Recognized(actions[0]);
      match Reduce(s, actions[0])
      case Next(t) =>
        RunNetCount(t, rest);
    }
  }

  /** The fold throws exactly when some dispatched action is unrecognised. */
  lemma {:induction false} RunThrowsIff(s: State, actions: seq<Action>)
    ensures Run(s, actions).Thrown? <==> exists i :: 0 <= i < |actions| && !Recognized(actions[i])
    decreases |actions|
  {
    if actions != [] {
      var rest := actions[1..];
      if Recognized(actions[0]) {
        match Reduce(s, actions[0])
        case Next(t) =>
          RunThrowsIff(t, rest);
          if exists i :: 0 <= i < |actions| && !Recognized(actions[i]) {
            var i :| 0 <= i < |actions| && !Recognized(actions[i]);
            assert i > 0 && !Recognized(rest[i - 1]);
          }
          if exists j :: 0 <= j < |rest| && !Recognized(rest[j]) {
            var j :| 0 <= j < |rest| && !Recognized(rest[j]);
            assert !Recognized(actions[j + 1]);
          }
      } else {
        assert !Recognized(actions[0]);
      }
    }
  }

  lemma {:induction false} OccurrencesRepeat(a: Action, n: nat, tag: string)
    ensures Occurrences(Repeat(a, n), tag) == if a.tag == tag then n else 0
  {
    if n > 0 {
      assert Repeat(a, n)[1..] == Repeat(a, n - 1);
      OccurrencesRepeat(a, n - 1, tag);
    }
  }

  /** From the initial state, `n` increments give count `n` and `n`
      decrements give count `-n`. */
  lemma RepeatedDispatch(n: nat)
    ensures Run(InitialState(), Repeat(Increment, n)) == Next(State(n))
    ensures Run(InitialState(), Repeat(Decrement, n)) == Next(State(-(n as int)))
  {
    RunNetCount(InitialState(), Repeat(Increment, n));
    OccurrencesRepeat(Increment, n, "increment");
    OccurrencesRepeat(Increment, n, "decrement");
    RunNetCount(InitialState(), Repeat(Decrement, n));
    OccurrencesRepeat(Decrement, n, "increment");
    OccurrencesRepeat(Decrement, n, "decrement");
  }

  /** The two buttons that `Counter` renders. */
  datatype Button = Plus | Minus

  /** The action each button's `onClick` dispatches. */
  function Dispatched(b: Button): (a: Action)
    ensures Recognized(a)
    ensures b == Plus <==> a == Increment
  {
    match b
    case Plus => Increment
    case Minus => Decrement
  }

  /** The actions dispatched by a sequence of button clicks. */
  function Dispatches(clicks: seq<Button>): (r: seq<Action>)
    ensures |r| == |clicks|
    ensures forall i :: 0 <= i < |clicks| ==> r[i] == Dispatched(clicks[i])
  {
    if clicks == [] then [] else [Dispatched(clicks[0])] + Dispatches(clicks[1..])
  }

  /** The number of clicks on button `b`. */
  function Clicks(clicks: seq<Button>, b: Button): (n: nat)
    ensures n <= |clicks|
  {
    if clicks == [] then 0
    else (if clicks[0] == b then 1 else 0) + Clicks(clicks[1..], b)
  }

  lemma {:induction false} OccurrencesOfDispatches(clicks: seq<Button>)
    ensures Occurrences(Dispatches(clicks), "increment") == Clicks(clicks, Plus)
    ensures Occurrences(Dispatches(clicks), "decrement") == Clicks(clicks, Minus)
  {
    if clicks != [] {
      assert Dispatches(clicks)[1..] == Dispatches(clicks[1..]);
      OccurrencesOfDispatches(clicks[1..]);
    }
  }

  /** The error branch of the reducer cannot be reached from the UI: any
      sequence of clicks on `Counter`'s buttons leaves the store holding the
      number of `+` clicks minus the number of `-` clicks. */
  lemma ButtonsNeverThrow(clicks: seq<Button>)
    ensures Run(InitialState(), Dispatches(clicks)) == Next(State(Clicks(clicks, Plus) - Clicks(clicks, Minus)))
  {
    RunNetCount(InitialState(), Dispatches(clicks));
    OccurrencesOfDispatches(clicks);
  }
}
