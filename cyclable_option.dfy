/**
 * The cheats' cyclable options (`apples_borderlands_cheats/cheats/__init__.py`):
 * a spinner option that also gets a keybind stepping its value through the
 * choices, wrapping from the last back to the first.
 */
module CyclableOptions {
  import opened Wrappers

  /** The keybind's prefix: "Cycle " for more than two choices, "Toggle " for two or fewer. */
  function CyclePrefix(choiceCount: nat): (r: string)
    ensures r == "Cycle " <==> choiceCount > 2
    ensures r == "Toggle " <==> choiceCount <= 2
  {
    if choiceCount > 2 then "Cycle " else "Toggle "
  }

  /** The keybind registered for an option: its name, display name and description title. */
  datatype Keybind = Keybind(name: string, displayName: string, descriptionTitle: string)

  function KeybindFor(identifier: string, displayName: string, descriptionTitle: string, choiceCount: nat): (k: Keybind)
    ensures var p := CyclePrefix(choiceCount);
      && |k.name| >= |p| && |k.displayName| >= |p| && |k.descriptionTitle| >= |p|
      && k.name[..|p|] == k.displayName[..|p|] == k.descriptionTitle[..|p|] == p
      && k.name[|p|..] == identifier && k.displayName[|p|..] == displayName && k.descriptionTitle[|p|..] == descriptionTitle
  {
    var p := CyclePrefix(choiceCount);
    Keybind(p + identifier, p + displayName, p + descriptionTitle)
  }

  /** `list.index`: the first position holding `v`. */
  function FirstIndex(choices: seq<string>, v: string): (r: nat)
    requires v in choices
    ensures r < |choices| && choices[r] == v
    ensures forall j :: 0 <= j < r ==> choices[j] != v
  {
    if choices[0] == v then 0 else 1 + FirstIndex(choices[1..], v)
  }

  /** The choice one cycle moves `v` to. */
  function NextChoice(choices: seq<string>, v: string): (r: string)
    requires v in choices
    ensures r in choices
  {
    choices[(FirstIndex(choices, v) + 1) % |choices|]
  }

  /** The value after `k` cycles. */
  function Cycled(choices: seq<string>, v: string, k: nat): string
    requires v in choices
    decreases k
  {
    if k == 0 then v else Cycled(choices, NextChoice(choices, v), k - 1)
  }

  predicate Distinct(choices: seq<string>)
  {
    forall i, j :: 0 <= i < j < |choices| ==> choices[i] != choices[j]
  }

  /** With distinct choices, `list.index` finds each choice at its own position. */
  lemma {:induction false} FirstIndexOfDistinct(choices: seq<string>, i: nat)
    requires Distinct(choices) && i < |choices|
    ensures FirstIndex(choices, choices[i]) == i
  {
  }

  /** Cycling steps to the next position, and from the last choice back to the first. */
  lemma {:induction false} NextChoiceSteps(choices: seq<string>, i: nat)
    requires Distinct(choices) && i < |choices|
    ensures NextChoice(choices, choices[i]) == if i == |choices| - 1 then choices[0] else choices[i + 1]
  {
    FirstIndexOfDistinct(choices, i);
    var n := |choices|;
    if i == n - 1 {
      assert (i + 1) % n == 0;
    } else {
      assert (i + 1) % n == i + 1;
    }
  }

  /** Any number of cycles keeps the value among the choices, and cycling `a + b` times is cycling `a` times, then `b` times. */
  lemma {:induction false} CycledSplit(choices: seq<string>, v: string, a: nat, b: nat)
    requires v in choices
    ensures Cycled(choices, v, a) in choices
    ensures Cycled(choices, v, a + b) == Cycled(choices, Cycled(choices, v, a), b)
    decreases a
  {
    if a > 0 {
      CycledSplit(choices, NextChoice(choices, v), a - 1, b);
    }
  }

  /** Without reaching the end, `k` cycles from position `i` reach position `i + k`. */
  lemma {:induction false} CycledForward(choices: seq<string>, i: nat, k: nat)
    requires Distinct(choices) && i + k < |choices|
    ensures Cycled(choices, choices[i], k) == choices[i + k]
    decreases k
  {
    if k > 0 {
      NextChoiceSteps(choices, i);
      CycledForward(choices, i + 1, k - 1);
    }
  }

  /**
   * With distinct choices, as many cycles as there are choices bring the
   * value back: forward to the last choice, over to the first, and forward
   * again to where it started.
   */
  lemma {:induction false} FullCycleReturns(choices: seq<string>, v: string)
    requires Distinct(choices) && v in choices
    ensures Cycled(choices, v, |choices|) == v
  {
    var i := FirstIndex(choices, v);
    CycledThroughLast(choices, i);
    CycledFromLast(choices, i);
  }

  /** From position `i`, `n` cycles are the cycles to the last position and `i + 1` more. */
  lemma {:induction false} CycledThroughLast(choices: seq<string>, i: nat)
    requires Distinct(choices) && i < |choices|
    ensures Cycled(choices, choices[i], |choices|) == Cycled(choices, choices[|choices| - 1], i + 1)
  {
    var n := |choices|;
    var a := n - 1 - i;
    assert a + (i + 1) == n && i + a == n - 1;
    CycledSplit(choices, choices[i], a, i + 1);
    CycledForward(choices, i, a);
    var mid := Cycled(choices, choices[i], a);
    assert mid == choices[n - 1];
    assert Cycled(choices, choices[i], n) == Cycled(choices, mid, i + 1);
  }

  /** From the last position, `i + 1` cycles wrap over to the first and reach position `i`. */
  lemma {:induction false} CycledFromLast(choices: seq<string>, i: nat)
    requires Distinct(choices) && i < |choices|
    ensures Cycled(choices, choices[|choices| - 1], i + 1) == choices[i]
  {
    var last := choices[|choices| - 1];
    CycledSplit(choices, last, 1, i);
    NextChoiceSteps(choices, |choices| - 1);
    CycledForward(choices, 0, i);
  }

  /**
   * Distinctness is needed: `list.index` finds the first occurrence, so with
   * a repeated choice the cycle skips the later positions and three cycles of
   * three choices need not come back.
   */
  lemma {:induction false} RepeatedChoiceCycleIsShorter()
    ensures Cycled(["A", "B", "A"], "A", 3) == "B"
  {
    var cs := ["A", "B", "A"];
    assert FirstIndex(cs, "A") == 0;
    assert FirstIndex(cs, "B") == 1;
    assert NextChoice(cs, "A") == "B";
    assert NextChoice(cs, "B") == "A";
  }

  /** A `CyclableOption`: a spinner option and its cycle keybind. */
  class CyclableOption {
    const identifier: string
    const displayName: string
    const choices: seq<string>
    const keybind: Keybind
    var value: string

    constructor (identifier: string, displayName: string, descriptionTitle: string, choices: seq<string>, value: string)
      ensures this.identifier == identifier && this.displayName == displayName
      ensures this.choices == choices && this.value == value
      ensures keybind == KeybindFor(identifier, displayName, descriptionTitle, |choices|)
    {
      this.identifier := identifier;
      this.displayName := displayName;
      this.choices := choices;
      this.value := value;
      this.keybind := KeybindFor(identifier, displayName, descriptionTitle, |choices|);
    }

    /**
     * The keybind's callback `on_cycle`: moves the value to the next choice
     * and returns the HUD message shown; a value that is not among the
     * choices makes `list.index` raise (`None`) and changes nothing.
     */
    method OnCycle() returns (message: Option<string>)
      modifies this
      ensures old(value) !in choices ==> message.None? && value == old(value)
      ensures old(value) in choices ==>
        && value == NextChoice(choices, old(value))
        && value in choices
        && message == Some(displayName + ": " + value)
    {
      if value !in choices {
        return None;
      }
      var idx := FirstIndex(choices, value);
      idx := (idx + 1) % |choices|;
      var newValue := choices[idx];
      message := Some(displayName + ": " + newValue);
      value := newValue;
    }
  }
}
