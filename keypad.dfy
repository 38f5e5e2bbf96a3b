/** The digit-only keypad of KeyEvents.jsx: an accumulator `inputValue` that
    key-up events append to when the key consists of digits only, a key-down
    handler that only decides whether to suppress the browser's default, and
    a change handler that does nothing to the state. */
module Keypad {

  predicate IsDigit(c: char)
  {
    '0' <= c <= '9'
  }

  /** Every character of `s` is an ASCII digit (`s` may be empty). */
  predicate AllDigits(s: string)
  {
    forall i :: 0 <= i < |s| ==> IsDigit(s[i])
  }

  /** `/^[0-9]+$/.test(key)`: one or more ASCII digits and nothing else. */
  predicate MatchesDigitPattern(key: string)
  {
    |key| > 0 && AllDigits(key)
  }

  /** The pattern accepts digit strings of any length, and rejects the empty
      key, named keys and any key with a non-digit in it. */
  lemma DigitPatternExamples()
    ensures MatchesDigitPattern("0") && MatchesDigitPattern("9") && MatchesDigitPattern("12")
    ensures !MatchesDigitPattern("") && !MatchesDigitPattern("a") && !MatchesDigitPattern("1a")
    ensures !MatchesDigitPattern("Backspace") && !MatchesDigitPattern("Enter")
  {
    assert !IsDigit("a"[0]);
    assert !IsDigit("1a"[1]);
    assert !IsDigit("Backspace"[0]);
    assert !IsDigit("Enter"[0]);
  }

  /** The keys whose default action `handleKeyDown` prevents. */
  const SuppressedKeys: seq<string> := ["Backspace", "Enter"]

  /** The accumulator after one key-up event: the key is appended when it
      passes the digit pattern and dropped otherwise. */
  function AfterKeyUp(value: string, key: string): (r: string)
    ensures value <= r
    ensures AllDigits(value) ==> AllDigits(r)
    ensures r == value <==> !MatchesDigitPattern(key)
    ensures MatchesDigitPattern(key) ==> r == value + key
  {
    if MatchesDigitPattern(key) then value + key else value
  }

  /** The accumulator after a sequence of key-up events. */
  function AfterKeyUps(value: string, keys: seq<string>): string
    decreases |keys|
  {
    if keys == [] then value else AfterKeyUps(AfterKeyUp(value, keys[0]), keys[1..])
  }

  /** The keys of `keys` that pass the digit pattern, in order. */
  function AcceptedKeys(keys: seq<string>): (r: seq<string>)
    ensures |r| <= |keys|
    ensures forall i :: 0 <= i < |r| ==> MatchesDigitPattern(r[i])
  {
    if keys == [] then []
    else if MatchesDigitPattern(keys[0]) then [keys[0]] + AcceptedKeys(keys[1..])
    else AcceptedKeys(keys[1..])
  }

  /** The concatenation of a sequence of strings. */
  function Concat(parts: seq<string>): string
  {
    if parts == [] then "" else parts[0] + Concat(parts[1..])
  }

  /** Key-up events append exactly the accepted keys, in the order they came. */
  lemma {:induction false} AfterKeyUpsAppendsAccepted(value: string, keys: seq<string>)
    ensures AfterKeyUps(value, keys) == value + Concat(AcceptedKeys(keys))
    decreases |keys|
  {
    if keys != [] {
      var rest := keys[1..];
      AfterKeyUpsAppendsAccepted(AfterKeyUp(value, keys[0]), rest);
      if MatchesDigitPattern(keys[0]) {
        assert AcceptedKeys(keys) == [keys[0]] + AcceptedKeys(rest);
        assert ([keys[0]] + AcceptedKeys(rest))[1..] == AcceptedKeys(rest);
        assert value + keys[0] + Concat(AcceptedKeys(rest))
            == value + (keys[0] + Concat(AcceptedKeys(rest)));
      }
    }
  }

  /** Whatever the keys, the old accumulator is a prefix of the new one. */
  lemma {:induction false} AfterKeyUpsExtends(value: string, keys: seq<string>)
    ensures value <= AfterKeyUps(value, keys)
    decreases |keys|
  {
    if keys != [] {
      AfterKeyUpsExtends(AfterKeyUp(value, keys[0]), keys[1..]);
    }
  }

  /** Starting from an all-digit accumulator, no sequence of key-up events
      can put a non-digit into it. */
  lemma {:induction false} AfterKeyUpsKeepsDigits(value: string, keys: seq<string>)
    requires AllDigits(value)
    ensures AllDigits(AfterKeyUps(value, keys))
    decreases |keys|
  {
    if keys != [] {
      AfterKeyUpsKeepsDigits(AfterKeyUp(value, keys[0]), keys[1..]);
    }
  }

  /** Key-ups "1", "a", "2" from the empty accumulator give "12"; "5" then
      "Backspace" gives "5". */
  lemma KeyUpExamples()
    ensures AfterKeyUps("", ["1", "a", "2"]) == "12"
    ensures AfterKeyUps("", ["5", "Backspace"]) == "5"
  {
    assert !MatchesDigitPattern("a") by { assert !IsDigit("a"[0]); }
    assert !MatchesDigitPattern("Backspace") by { assert !IsDigit("Backspace"[0]); }
    assert MatchesDigitPattern("1") && MatchesDigitPattern("2") && MatchesDigitPattern("5");
    var keys := ["1", "a", "2"];
    assert keys[1..] == ["a", "2"] && keys[1..][1..] == ["2"] && keys[1..][1..][1..] == [];
    assert AfterKeyUps("", keys) == AfterKeyUps("1", ["a", "2"]);
    assert AfterKeyUps("1", ["a", "2"]) == AfterKeyUps("1", ["2"]);
    assert AfterKeyUps("1", ["2"]) == AfterKeyUps("12", []);
    var more := ["5", "Backspace"];
    assert more[1..] == ["Backspace"] && more[1..][1..] == [];
    assert AfterKeyUps("", more) == AfterKeyUps("5", ["Backspace"]);
    assert AfterKeyUps("5", ["Backspace"]) == AfterKeyUps("5", []);
  }

  /** The `KeypadInput` component and its one state field. */
  class KeypadInput {
    var inputValue: string

    /** The accumulator holds digits only. */
    ghost predicate Valid()
      reads this
    {
      AllDigits(inputValue)
    }

    /** `useState('')`. */
    constructor ()
      ensures Valid()
      ensures inputValue == ""
    {
      inputValue := "";
    }

    /** `handleKeyDown`: reports whether the default action is prevented;
        it changes no state. */
    method KeyDown(key: string) returns (preventDefault: bool)
      ensures preventDefault <==> key == "Backspace" || key == "Enter"
    {
      preventDefault := key in SuppressedKeys;
    }

    /** `handleKeyUp`: appends the key when it passes the digit pattern and
        leaves the accumulator alone otherwise. */
    method KeyUp(key: string)
      requires Valid()
      modifies this
      ensures Valid()
      ensures inputValue == AfterKeyUp(old(inputValue), key)
    {
      if !MatchesDigitPattern(key) {
        return;
      }
      inputValue := inputValue + key;
    }

    /** `handleChange`: only logs the new value. */
    method Change(value: string)
      ensures inputValue == old(inputValue)
    {
    }
  }

  /** The component as a user sees it after typing "1", "a", "2". */
  method TypeOneAThenTwo() returns (shown: string)
    ensures shown == "12"
  {
    var pad := new KeypadInput();
    pad.KeyUp("1");
    assert !MatchesDigitPattern("a") by { assert !IsDigit("a"[0]); }
    pad.KeyUp("a");
    pad.KeyUp("2");
    shown := pad.inputValue;
  }
}
